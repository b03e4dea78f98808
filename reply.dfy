/**
 * Composing a reply (src/main.rs:124-141): call the chain's `generate()`
 * until it yields more than one token, join that attempt with single spaces
 * and address it to the configured channel under the bot's name.
 * The chain is not modelled: its successive results are given as `attempts`.
 */
module Reply {
  import opened Wrappers
  import opened Words

  /** The command line: archive root, API token, target channel, bot display name. */
  datatype Config = Config(logs: string, token: string, channel: string, botname: string)

  /** The JSON body posted to `chat.postMessage`. */
  datatype Response = Response(channel: string, text: string, username: string)

  /** The index of the first attempt with more than one token, if any. */
  function FirstLong(attempts: seq<seq<string>>): (r: Option<nat>)
    ensures r.Some? ==> r.value < |attempts| && |attempts[r.value]| > 1
    ensures r.Some? ==> forall j :: 0 <= j < r.value ==> |attempts[j]| <= 1
    ensures r.None? ==> forall j :: 0 <= j < |attempts| ==> |attempts[j]| <= 1
  {
    if attempts == [] then None
    else if |attempts[0]| > 1 then Some(0)
    else match FirstLong(attempts[1..])
      case Some(k) => Some(k + 1)
      case None => None
  }

  /**
   * The retry loop. `calls` is how many times `generate()` was called. When no
   * attempt is long enough, the source would go on calling `generate()`; here
   * the given attempts are used up and no reply is produced.
   */
  method ChooseReply(attempts: seq<seq<string>>) returns (reply: Option<string>, calls: nat)
    ensures calls <= |attempts|
    ensures reply.Some? ==> 0 < calls && |attempts[calls - 1]| > 1 && reply.value == Join(attempts[calls - 1])
    ensures forall j :: 0 <= j < calls - 1 ==> |attempts[j]| <= 1
    ensures reply.None? ==> calls == |attempts| && forall j :: 0 <= j < |attempts| ==> |attempts[j]| <= 1
    ensures reply.Some? <==> FirstLong(attempts).Some?
    ensures reply.Some? ==> calls == FirstLong(attempts).value + 1
  {
    calls := 0;
    while calls < |attempts|
      invariant calls <= |attempts|
      invariant forall j :: 0 <= j < calls ==> |attempts[j]| <= 1
    {
      var attempt := attempts[calls];
      calls := calls + 1;
      if |attempt| > 1 {
        return Some(Join(attempt)), calls;
      }
    }
    reply := None;
  }

  /**
   * When the chain's tokens are whitespace-free words, the reply splits back
   * into exactly the accepted attempt, so it is itself more than one word long.
   */
  lemma {:induction false} ReplyIsSentence(attempts: seq<seq<string>>, k: nat)
    requires FirstLong(attempts) == Some(k)
    requires forall t :: 0 <= t < |attempts[k]| ==> IsWord(attempts[k][t])
    ensures Tokens(Join(attempts[k])) == attempts[k]
    ensures |Tokens(Join(attempts[k]))| > 1
  {
    TokensOfJoin(attempts[k]);
  }

}
