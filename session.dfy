/**
 * The serving loop (src/main.rs:92-154): fetch a session endpoint, open the
 * websocket, then receive frames one at a time until the socket closes or
 * fails, and start over. A qualifying message triggers one reply, produced
 * and posted before the next frame is received.
 *
 * The network is not modelled: the frames the socket delivers and the results
 * of the chain's `generate()` are given as finite sequences, and the model
 * emits the outward effects as `Action`s. Running out of frames, or of
 * attempts while a reply is being generated, ends the run.
 */
module Session {
  import opened Wrappers
  import opened Words
  import opened Reply

  /** A parsed inbound event; the parse fails unless `type`, `channel` and `user` are all present. */
  datatype Event = Event(ty: string, channel: string, user: string)

  /** What one `recv_message()` returns. */
  datatype Frame =
    | Text(event: Option<Event>)      // a text frame and the result of parsing its body
    | Ping(payload: seq<bv8>)
    | Close
    | Other                           // binary or pong frames
    | RecvError

  /** An outward effect of the loop. */
  datatype Action =
    | FetchEndpoint(token: string)              // GET rtm.connect with the token
    | OpenSocket                                // secure websocket to the fetched url
    | Generate                                  // one call of the chain's generate()
    | Post(token: string, response: Response)   // chat.postMessage with bearer auth
    | SendPong(payload: seq<bv8>)

  /** A fresh connection: an endpoint fetch, then the socket. */
  function Connect(cfg: Config): seq<Action> {
    [FetchEndpoint(cfg.token), OpenSocket]
  }

  /** `n` calls of generate(). */
  function Generates(n: nat): (r: seq<Action>)
    ensures |r| == n
  {
    if n == 0 then [] else [Generate] + Generates(n - 1)
  }

  /** A parsed event of type "message" in the configured channel. */
  predicate Qualifies(cfg: Config, event: Option<Event>) {
    event.Some? && event.value.ty == "message" && event.value.channel == cfg.channel
  }

  /**
   * The effects of frames, how many attempts they consumed, and whether the
   * attempts ran out while a reply was still being generated.
   */
  datatype Reaction = Reaction(actions: seq<Action>, used: nat, halted: bool)

  function PostCount(actions: seq<Action>): nat {
    if actions == [] then 0 else (if actions[0].Post? then 1 else 0) + PostCount(actions[1..])
  }

  function FetchCount(actions: seq<Action>): nat {
    if actions == [] then 0 else (if actions[0].FetchEndpoint? then 1 else 0) + FetchCount(actions[1..])
  }

  /** The payloads of the pongs sent, in order. */
  function Pongs(actions: seq<Action>): seq<seq<bv8>> {
    if actions == [] then [] else (if actions[0].SendPong? then [actions[0].payload] else []) + Pongs(actions[1..])
  }

  /** The reply to the configured channel, under the bot's name, carrying `text`. */
  function Answer(cfg: Config, text: string): Action {
    Post(cfg.token, Response(cfg.channel, text, cfg.botname))
  }

  /**
   * The retry loop of a reply: each turn calls `generate()` once, and the
   * first attempt of more than one token is posted, joined by single spaces.
   * With no such attempt left the loop has used them all up and `halted` is set.
   */
  function Retry(cfg: Config, attempts: seq<seq<string>>): (r: Reaction)
    ensures r.used <= |attempts|
  {
    if |attempts| == 0 then Reaction([], 0, true)
    else if |attempts[0]| > 1 then Reaction([Generate, Answer(cfg, Join(attempts[0]))], 1, false)
    else
      var rest := Retry(cfg, attempts[1..]);
      Reaction([Generate] + rest.actions, rest.used + 1, rest.halted)
  }

  /**
   * The retry loop posts the first attempt of more than one token, after one
   * `generate()` call per attempt up to and including it; with none, it calls
   * `generate()` once per attempt and posts nothing.
   */
  lemma {:induction false} RetryFirstLong(cfg: Config, attempts: seq<seq<string>>)
    ensures match FirstLong(attempts)
            case Some(k) => Retry(cfg, attempts) == Reaction(Generates(k + 1) + [Answer(cfg, Join(attempts[k]))], k + 1, false)
            case None => Retry(cfg, attempts) == Reaction(Generates(|attempts|), |attempts|, true)
  {
    if |attempts| > 0 && |attempts[0]| <= 1 {
      var tail := attempts[1..];
      RetryFirstLong(cfg, tail);
      match FirstLong(tail) {
        case Some(k) =>
          Associative([Generate], Generates(k + 1), [Answer(cfg, Join(tail[k]))]);
        case None =>
      }
    }
  }

  /** The handling of one received frame. */
  function Step(cfg: Config, frame: Frame, attempts: seq<seq<string>>): (r: Reaction)
    ensures r.used <= |attempts|
  {
    match frame
    case Text(event) =>
      if Qualifies(cfg, event) then Retry(cfg, attempts) else Reaction([], 0, false)
    case Ping(p) => Reaction([SendPong(p)], 0, false)
    case Close => Reaction(Connect(cfg), 0, false)
    case RecvError => Reaction(Connect(cfg), 0, false)
    case Other => Reaction([], 0, false)
  }

  lemma {:induction false} GeneratesCounts(n: nat)
    ensures PostCount(Generates(n)) == 0 && FetchCount(Generates(n)) == 0 && Pongs(Generates(n)) == []
  {
    if n > 0 {
      assert ([Generate] + Generates(n - 1))[1..] == Generates(n - 1);
      GeneratesCounts(n - 1);
    }
  }

  /**
   * What one frame does: generation and a reply only for a qualifying
   * message, and then exactly one reply; a Pong with the Ping's payload; a
   * fresh connection after Close or an error; nothing for anything else.
   */
  lemma {:induction false} StepFacts(cfg: Config, frame: Frame, attempts: seq<seq<string>>)
    ensures var r := Step(cfg, frame, attempts);
      && ((r.used > 0 || r.halted) ==> frame.Text? && Qualifies(cfg, frame.event))
      && (r.halted <==> frame.Text? && Qualifies(cfg, frame.event) && FirstLong(attempts).None?)
      && PostCount(r.actions) == (if frame.Text? && Qualifies(cfg, frame.event) && !r.halted then 1 else 0)
      && FetchCount(r.actions) == (if frame.Close? || frame.RecvError? then 1 else 0)
      && Pongs(r.actions) == (if frame.Ping? then [frame.payload] else [])
      && (frame.Ping? ==> r == Reaction([SendPong(frame.payload)], 0, false))
      && (frame.Close? || frame.RecvError? ==> r == Reaction(Connect(cfg), 0, false))
      && (frame.Other? || (frame.Text? && !Qualifies(cfg, frame.event)) ==> r == Reaction([], 0, false))
      && (PostCount(r.actions) == 1 ==>
            0 < r.used && |attempts[r.used - 1]| > 1 &&
            r.actions == Generates(r.used) + [Answer(cfg, Join(attempts[r.used - 1]))])
  {
    var r := Step(cfg, frame, attempts);
    match frame
    case Text(event) =>
      if Qualifies(cfg, event) {
        RetryFirstLong(cfg, attempts);
        GeneratesCounts(r.used);
        if !r.halted {
          var tail := [Answer(cfg, Join(attempts[r.used - 1]))];
          PostCountConcat(Generates(r.used), tail);
          FetchCountConcat(Generates(r.used), tail);
          PongsConcat(Generates(r.used), tail);
          assert tail[1..] == [];
        }
      }
    case Ping(p) =>
      assert [SendPong(p)][1..] == [];
    case Close =>
      assert Connect(cfg)[1..] == [OpenSocket] && [OpenSocket][1..] == [];
    case RecvError =>
      assert Connect(cfg)[1..] == [OpenSocket] && [OpenSocket][1..] == [];
    case Other =>
  }

  /**
   * The serving loop after the first `k` frames: its effects so far (starting
   * with the first connection), the attempts consumed, and whether the
   * attempts ran out during a reply. Once they have, later frames change nothing.
   */
  function After(cfg: Config, frames: seq<Frame>, attempts: seq<seq<string>>, k: nat): (r: Reaction)
    requires k <= |frames|
    ensures r.used <= |attempts|
  {
    if k == 0 then Reaction(Connect(cfg), 0, false)
    else
      var p := After(cfg, frames, attempts, k - 1);
      if p.halted then p
      else
        var s := Step(cfg, frames[k - 1], attempts[p.used..]);
        Reaction(p.actions + s.actions, p.used + s.used, s.halted)
  }

  /** Everything the bot does once the history is loaded, over the given frames. */
  function Serve(cfg: Config, frames: seq<Frame>, attempts: seq<seq<string>>): seq<Action> {
    After(cfg, frames, attempts, |frames|).actions
  }

  lemma Associative<T>(a: seq<T>, b: seq<T>, c: seq<T>)
    ensures (a + b) + c == a + (b + c)
  {
  }

  /** One more frame, reached while generation has not run out, adds its step's effects. */
  lemma {:induction false} AfterStep(cfg: Config, frames: seq<Frame>, attempts: seq<seq<string>>, k: nat)
    requires k < |frames| && !After(cfg, frames, attempts, k).halted
    ensures var p := After(cfg, frames, attempts, k);
            var s := Step(cfg, frames[k], attempts[p.used..]);
            After(cfg, frames, attempts, k + 1) == Reaction(p.actions + s.actions, p.used + s.used, s.halted)
  {
  }

  /** Once generation has run out of attempts, nothing more happens. */
  lemma {:induction false} HaltedStays(cfg: Config, frames: seq<Frame>, attempts: seq<seq<string>>, k: nat, n: nat)
    requires k <= n <= |frames|
    requires After(cfg, frames, attempts, k).halted
    ensures After(cfg, frames, attempts, n) == After(cfg, frames, attempts, k)
    decreases n - k
  {
    if k < n {
      HaltedStays(cfg, frames, attempts, k + 1, n);
    }
  }

  /**
   * The `match` on one received frame, with `g` attempts already used: its
   * effects, the generate() calls it made, whether it ends the connection and
   * whether generation ran out of attempts. A dropped connection's reconnect
   * is the outer loop's.
   */
  method Handle(cfg: Config, frame: Frame, attempts: seq<seq<string>>, g: nat)
    returns (effects: seq<Action>, calls: nat, dropped: bool, halted: bool)
    requires g <= |attempts|
    ensures dropped <==> frame.Close? || frame.RecvError?
    ensures Step(cfg, frame, attempts[g..]) ==
            Reaction(effects + (if dropped then Connect(cfg) else []), calls, halted)
  {
    effects, calls, dropped, halted := [], 0, false, false;
    match frame {
      case Text(event) =>
        if Qualifies(cfg, event) {
          var reply;
          reply, calls := ChooseReply(attempts[g..]);
          RetryFirstLong(cfg, attempts[g..]);
          effects := Generates(calls);
          match reply {
            case Some(text) =>
              effects := effects + [Answer(cfg, text)];
            case None =>
              halted := true;
          }
        }
      case Ping(p) =>
        effects := [SendPong(p)];
      case Close =>
        dropped := true;
      case RecvError =>
        dropped := true;
      case Other =>
    }
  }

  /**
   * The inner receive loop of one connection, from frame `i` on with `g`
   * attempts used: it returns when the socket closes or fails (`dropped`),
   * when the frames run out, or when generation runs out of attempts.
   * `effects` are the effects it produced.
   */
  method Connection(cfg: Config, frames: seq<Frame>, attempts: seq<seq<string>>, i: nat, g: nat)
    returns (effects: seq<Action>, next: nat, used: nat, dropped: bool, halted: bool)
    requires i <= |frames|
    requires !After(cfg, frames, attempts, i).halted && g == After(cfg, frames, attempts, i).used
    ensures i <= next <= |frames|
    ensures dropped ==> i < next && !halted
    ensures !halted ==> !After(cfg, frames, attempts, next).halted && used == After(cfg, frames, attempts, next).used
    ensures After(cfg, frames, attempts, i).actions + effects + (if dropped then Connect(cfg) else []) ==
            After(cfg, frames, attempts, next).actions
    ensures !dropped && !halted ==> next == |frames|
    ensures halted ==> After(cfg, frames, attempts, next).halted
    ensures dropped ==> frames[next - 1].Close? || frames[next - 1].RecvError?
    ensures forall j :: i <= j < next - (if dropped then 1 else 0) ==> !frames[j].Close? && !frames[j].RecvError?
  {
    ghost var start := After(cfg, frames, attempts, i).actions;
    effects, next, used, dropped, halted := [], i, g, false, false;
    assert start + effects == start;
    while !dropped && !halted && next < |frames|
      invariant i <= next <= |frames|
      invariant dropped ==> i < next && !halted
      invariant !halted ==> !After(cfg, frames, attempts, next).halted && used == After(cfg, frames, attempts, next).used
      invariant !dropped ==> start + effects == After(cfg, frames, attempts, next).actions
      invariant dropped ==> start + effects + Connect(cfg) == After(cfg, frames, attempts, next).actions
      invariant halted ==> After(cfg, frames, attempts, next).halted
      invariant dropped ==> frames[next - 1].Close? || frames[next - 1].RecvError?
      invariant forall j :: i <= j < next - (if dropped then 1 else 0) ==> !frames[j].Close? && !frames[j].RecvError?
      decreases |frames| - next
    {
      var more, calls;
      more, calls, dropped, halted := Handle(cfg, frames[next], attempts, used);
      AfterStep(cfg, frames, attempts, next);
      if dropped {
        Associative(start + effects, more, Connect(cfg));
      } else {
        assert more + [] == more;
      }
      Associative(start, effects, more);
      effects := effects + more;
      used := used + calls;
      next := next + 1;
    }
  }

  /** The outer reconnect loop around the inner receive loop. */
  method Run(cfg: Config, frames: seq<Frame>, attempts: seq<seq<string>>) returns (actions: seq<Action>)
    ensures actions == Serve(cfg, frames, attempts)
  {
    actions := [];
    var i, g := 0, 0;
    var halted := false;
    while !halted
      invariant i <= |frames|
      invariant !halted ==> !After(cfg, frames, attempts, i).halted && g == After(cfg, frames, attempts, i).used
      invariant !halted ==> actions + Connect(cfg) == After(cfg, frames, attempts, i).actions
      invariant halted ==> actions == Serve(cfg, frames, attempts)
      decreases |frames| - i, if halted then 0 else 1
    {
      // fetch a fresh endpoint and open the socket
      actions := actions + Connect(cfg);
      var effects, next, used, dropped, stop := Connection(cfg, frames, attempts, i, g);
      actions := actions + effects;
      i, g := next, used;
      if !dropped {
        // the frames ran out, or generation did
        halted := true;
        if stop {
          HaltedStays(cfg, frames, attempts, i, |frames|);
        } else {
          assert actions + [] == actions;
        }
      }
    }
  }

  // ---------------------------------------------------------------------------
  // Properties of the serving loop

  lemma {:induction false} PostCountConcat(a: seq<Action>, b: seq<Action>)
    ensures PostCount(a + b) == PostCount(a) + PostCount(b)
  {
    if a != [] {
      assert (a + b)[1..] == a[1..] + b;
      PostCountConcat(a[1..], b);
    } else {
      assert a + b == b;
    }
  }

  lemma {:induction false} FetchCountConcat(a: seq<Action>, b: seq<Action>)
    ensures FetchCount(a + b) == FetchCount(a) + FetchCount(b)
  {
    if a != [] {
      assert (a + b)[1..] == a[1..] + b;
      FetchCountConcat(a[1..], b);
    } else {
      assert a + b == b;
    }
  }

  lemma {:induction false} PongsConcat(a: seq<Action>, b: seq<Action>)
    ensures Pongs(a + b) == Pongs(a) + Pongs(b)
  {
    if a != [] {
      assert (a + b)[1..] == a[1..] + b;
      PongsConcat(a[1..], b);
    } else {
      assert a + b == b;
    }
  }

  /**
   * Frame `k`, reached while generation has not run out, adds exactly its own
   * effects after those of the frames before it: after a Close or a receive
   * error the next effects are one endpoint fetch and one socket; after a Ping
   * one Pong with its payload and no generation.
   */
  lemma {:induction false} FrameEffects(cfg: Config, frames: seq<Frame>, attempts: seq<seq<string>>, k: nat)
    requires k < |frames|
    requires !After(cfg, frames, attempts, k).halted
    ensures var p := After(cfg, frames, attempts, k);
            var q := After(cfg, frames, attempts, k + 1);
            && (frames[k].Close? || frames[k].RecvError? ==> q == Reaction(p.actions + Connect(cfg), p.used, false))
            && (frames[k].Ping? ==> q == Reaction(p.actions + [SendPong(frames[k].payload)], p.used, false))
            && (frames[k].Other? || (frames[k].Text? && !Qualifies(cfg, frames[k].event)) ==> q == p)
  {
  }

  /** The number of qualifying text frames. */
  function Qualifying(cfg: Config, frames: seq<Frame>): nat {
    if |frames| == 0 then 0
    else
      var last := frames[|frames| - 1];
      Qualifying(cfg, frames[..|frames| - 1]) + (if last.Text? && Qualifies(cfg, last.event) then 1 else 0)
  }

  /** The number of frames that end a connection. */
  function Drops(frames: seq<Frame>): nat {
    if |frames| == 0 then 0
    else
      var last := frames[|frames| - 1];
      Drops(frames[..|frames| - 1]) + (if last.Close? || last.RecvError? then 1 else 0)
  }

  /** The payloads of the pings received, in order. */
  function Pings(frames: seq<Frame>): seq<seq<bv8>> {
    if |frames| == 0 then []
    else
      var last := frames[|frames| - 1];
      Pings(frames[..|frames| - 1]) + (if last.Ping? then [last.payload] else [])
  }

  /** Up to any frame reached before generation runs out, one reply per qualifying message. */
  lemma {:induction false} RepliesPerMessage(cfg: Config, frames: seq<Frame>, attempts: seq<seq<string>>, k: nat)
    requires k <= |frames|
    requires !After(cfg, frames, attempts, k).halted
    ensures PostCount(After(cfg, frames, attempts, k).actions) == Qualifying(cfg, frames[..k])
  {
    if k == 0 {
      assert Connect(cfg)[1..] == [OpenSocket] && [OpenSocket][1..] == [];
    } else {
      var p := After(cfg, frames, attempts, k - 1);
      var s := Step(cfg, frames[k - 1], attempts[p.used..]);
      assert After(cfg, frames, attempts, k).actions == p.actions + s.actions by {
        AfterStep(cfg, frames, attempts, k - 1);
      }
      assert PostCount(s.actions) == (if frames[k - 1].Text? && Qualifies(cfg, frames[k - 1].event) then 1 else 0) by {
        StepFacts(cfg, frames[k - 1], attempts[p.used..]);
      }
      assert Qualifying(cfg, frames[..k]) == Qualifying(cfg, frames[..k - 1]) + (if frames[k - 1].Text? && Qualifies(cfg, frames[k - 1].event) then 1 else 0) by {
        assert frames[..k][..k - 1] == frames[..k - 1];
      }
      RepliesPerMessage(cfg, frames, attempts, k - 1);
      PostCountConcat(p.actions, s.actions);
    }
  }

  /**
   * Up to any frame reached before generation runs out, one endpoint fetch
   * for the first connection and one per Close or receive error.
   */
  lemma {:induction false} FetchesPerDrop(cfg: Config, frames: seq<Frame>, attempts: seq<seq<string>>, k: nat)
    requires k <= |frames|
    requires !After(cfg, frames, attempts, k).halted
    ensures FetchCount(After(cfg, frames, attempts, k).actions) == 1 + Drops(frames[..k])
  {
    if k == 0 {
      assert Connect(cfg)[1..] == [OpenSocket] && [OpenSocket][1..] == [];
    } else {
      var p := After(cfg, frames, attempts, k - 1);
      var s := Step(cfg, frames[k - 1], attempts[p.used..]);
      assert After(cfg, frames, attempts, k).actions == p.actions + s.actions by {
        AfterStep(cfg, frames, attempts, k - 1);
      }
      assert FetchCount(s.actions) == (if frames[k - 1].Close? || frames[k - 1].RecvError? then 1 else 0) by {
        StepFacts(cfg, frames[k - 1], attempts[p.used..]);
      }
      assert Drops(frames[..k]) == Drops(frames[..k - 1]) + (if frames[k - 1].Close? || frames[k - 1].RecvError? then 1 else 0) by {
        assert frames[..k][..k - 1] == frames[..k - 1];
      }
      FetchesPerDrop(cfg, frames, attempts, k - 1);
      FetchCountConcat(p.actions, s.actions);
    }
  }

  /** Up to any frame reached before generation runs out, the pongs echo the pings' payloads in order. */
  lemma {:induction false} PongsEchoPings(cfg: Config, frames: seq<Frame>, attempts: seq<seq<string>>, k: nat)
    requires k <= |frames|
    requires !After(cfg, frames, attempts, k).halted
    ensures Pongs(After(cfg, frames, attempts, k).actions) == Pings(frames[..k])
  {
    if k == 0 {
      assert Connect(cfg)[1..] == [OpenSocket] && [OpenSocket][1..] == [];
    } else {
      var p := After(cfg, frames, attempts, k - 1);
      var s := Step(cfg, frames[k - 1], attempts[p.used..]);
      assert After(cfg, frames, attempts, k).actions == p.actions + s.actions by {
        AfterStep(cfg, frames, attempts, k - 1);
      }
      assert Pongs(s.actions) == (if frames[k - 1].Ping? then [frames[k - 1].payload] else []) by {
        StepFacts(cfg, frames[k - 1], attempts[p.used..]);
      }
      assert Pings(frames[..k]) == Pings(frames[..k - 1]) + (if frames[k - 1].Ping? then [frames[k - 1].payload] else []) by {
        assert frames[..k][..k - 1] == frames[..k - 1];
      }
      PongsEchoPings(cfg, frames, attempts, k - 1);
      PongsConcat(p.actions, s.actions);
    }
  }

  /** No element of a sequence with no posts is a post. */
  lemma {:induction false} PostAbsent(actions: seq<Action>, i: nat)
    requires PostCount(actions) == 0 && i < |actions|
    ensures !actions[i].Post?
  {
    if i > 0 {
      PostAbsent(actions[1..], i - 1);
    }
  }

  /** A reply's effects hold exactly one post, at the end. */
  lemma {:induction false} PostOfReply(n: nat, last: Action, i: nat)
    requires i < n + 1
    requires (Generates(n) + [last])[i].Post?
    ensures i == n
  {
    if i < n {
      GeneratesCounts(n);
      assert (Generates(n) + [last])[i] == Generates(n)[i];
      PostAbsent(Generates(n), i);
    }
  }

  /**
   * The only post a single frame can cause is the answer built from the
   * configuration and the attempt that ended the retry loop, which has more
   * than one token.
   */
  lemma {:induction false} StepPost(cfg: Config, frame: Frame, attempts: seq<seq<string>>, m: nat)
    requires m < |Step(cfg, frame, attempts).actions|
    requires Step(cfg, frame, attempts).actions[m].Post?
    ensures var s := Step(cfg, frame, attempts);
            && 0 < s.used <= |attempts| && |attempts[s.used - 1]| > 1
            && s.actions[m] == Answer(cfg, Join(attempts[s.used - 1]))
  {
    var s := Step(cfg, frame, attempts);
    StepFacts(cfg, frame, attempts);
    assert PostCount(s.actions) == 1 by {
      if PostCount(s.actions) == 0 {
        PostAbsent(s.actions, m);
      }
    }
    PostOfReply(s.used, Answer(cfg, Join(attempts[s.used - 1])), m);
  }

  /**
   * Every post among `actions` carries the configured token, channel and bot
   * name, and its text is an attempt of more than one token joined by spaces.
   */
  ghost predicate RepliesFrom(cfg: Config, attempts: seq<seq<string>>, actions: seq<Action>) {
    forall i :: 0 <= i < |actions| && actions[i].Post? ==>
      && actions[i].token == cfg.token
      && actions[i].response.channel == cfg.channel
      && actions[i].response.username == cfg.botname
      && exists j :: 0 <= j < |attempts| && |attempts[j]| > 1 && actions[i].response.text == Join(attempts[j])
  }

  lemma {:induction false} RepliesFromConcat(cfg: Config, attempts: seq<seq<string>>, a: seq<Action>, b: seq<Action>)
    requires RepliesFrom(cfg, attempts, a) && RepliesFrom(cfg, attempts, b)
    ensures RepliesFrom(cfg, attempts, a + b)
  {
  }

  /** The effects of one frame, generating from the attempts after the first `used`. */
  lemma {:induction false} StepReplies(cfg: Config, frame: Frame, attempts: seq<seq<string>>, used: nat)
    requires used <= |attempts|
    ensures RepliesFrom(cfg, attempts, Step(cfg, frame, attempts[used..]).actions)
  {
    var rest := attempts[used..];
    var s := Step(cfg, frame, rest);
    forall m | 0 <= m < |s.actions| && s.actions[m].Post?
      ensures s.actions[m] == Answer(cfg, Join(attempts[used + s.used - 1]))
      ensures |attempts[used + s.used - 1]| > 1
    {
      StepPost(cfg, frame, rest, m);
      assert rest[s.used - 1] == attempts[used + s.used - 1];
    }
  }

  /** Every reply the bot posts is built from its configuration and a generated sentence. */
  lemma {:induction false} RepliesUseConfig(cfg: Config, frames: seq<Frame>, attempts: seq<seq<string>>, k: nat)
    requires k <= |frames|
    ensures RepliesFrom(cfg, attempts, After(cfg, frames, attempts, k).actions)
  {
    if k > 0 {
      var p := After(cfg, frames, attempts, k - 1);
      RepliesUseConfig(cfg, frames, attempts, k - 1);
      if !p.halted {
        AfterStep(cfg, frames, attempts, k - 1);
        StepReplies(cfg, frames[k - 1], attempts, p.used);
        RepliesFromConcat(cfg, attempts, p.actions, Step(cfg, frames[k - 1], attempts[p.used..]).actions);
      }
    }
  }

}
