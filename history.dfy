/**
 * Loading the message history (src/main.rs:49-82): choosing the archive
 * files, extracting the sentences of one file, and merging the per-file
 * lists that the worker threads send back into the corpus fed to the chain.
 * Directory listing, file reading and JSON parsing are done by the caller;
 * their results are the inputs here.
 */
module History {
  import opened Wrappers
  import opened Words

  // ---------------------------------------------------------------------------
  // Archive path selection (src/main.rs:53-58)

  /**
   * One entry of the root listing: its path, whether its file type is a
   * directory (a symbolic link is not), and `children`, the paths that
   * listing `path` itself returns (src/main.rs:56). The selection never
   * reads `path` directly; it is kept so that `children` has its directory.
   */
  datatype Entry = Entry(path: string, isDir: bool, children: seq<string>)

  /** The path string ends in `json`: a plain suffix test, no dot needed. */
  predicate IsArchivePath(p: string) {
    |p| >= 4 && p[|p| - 4..] == "json"
  }

  /** The paths among `paths` that pass the suffix test, in listing order. */
  function ArchivePaths(paths: seq<string>): seq<string> {
    if paths == [] then []
    else (if IsArchivePath(paths[0]) then [paths[0]] else []) + ArchivePaths(paths[1..])
  }

  /**
   * The archive files: every entry of every directory of the root listing
   * whose path ends in `json`, whatever its own kind; nothing deeper.
   */
  function SelectPaths(root: seq<Entry>): seq<string> {
    if root == [] then []
    else (if root[0].isDir then ArchivePaths(root[0].children) else []) + SelectPaths(root[1..])
  }

  lemma {:induction false} ArchivePathsIff(paths: seq<string>, p: string)
    ensures p in ArchivePaths(paths) <==> p in paths && IsArchivePath(p)
  {
    if paths != [] {
      ArchivePathsIff(paths[1..], p);
      assert paths == [paths[0]] + paths[1..];
    }
  }

  /** A path is selected exactly when it is listed by a directory of the root and ends in `json`. */
  lemma {:induction false} SelectPathsIff(root: seq<Entry>, p: string)
    ensures p in SelectPaths(root) <==>
      (exists e :: e in root && e.isDir && p in e.children) && IsArchivePath(p)
  {
    if root != [] {
      SelectPathsIff(root[1..], p);
      ArchivePathsIff(root[0].children, p);
      assert root == [root[0]] + root[1..];
      if exists e :: e in root && e.isDir && p in e.children {
        var e :| e in root && e.isDir && p in e.children;
        if e != root[0] {
          assert e in root[1..];
        }
      }
    }
  }

  /** The suffix test needs no dot and is case-sensitive. */
  lemma SuffixTestExamples()
    ensures IsArchivePath("2018-06-01.json") && IsArchivePath("xjson") && IsArchivePath("json")
    ensures !IsArchivePath("2018-06-01.JSON") && !IsArchivePath("json.bak") && !IsArchivePath("")
  {
  }

  // ---------------------------------------------------------------------------
  // Sentence extraction for one archive file (src/main.rs:62-70)

  /** One logged record; only its optional `text` field is read. */
  datatype Message = Message(text: Option<string>)

  /** A text is kept when it splits on whitespace into more than one token. */
  predicate IsSentence(text: string) {
    |Tokens(text)| > 1
  }

  /** The present texts of `messages`, in order (`filter_map(|m| m.text)`). */
  function Present(messages: seq<Message>): seq<string> {
    if messages == [] then []
    else (if messages[0].text.Some? then [messages[0].text.value] else []) + Present(messages[1..])
  }

  /** The sentences of one file: its present texts that are sentences, unchanged and in order. */
  function Kept(messages: seq<Message>): seq<string> {
    if messages == [] then []
    else
      var m := messages[0];
      (if m.text.Some? && IsSentence(m.text.value) then [m.text.value] else []) + Kept(messages[1..])
  }

  /** The loop over one file's records: each accepted text is pushed onto `sentences`. */
  method ExtractSentences(messages: seq<Message>) returns (sentences: seq<string>)
    ensures sentences == Kept(messages)
  {
    sentences := [];
    for i := 0 to |messages|
      invariant sentences == Kept(messages[..i])
    {
      KeptSnoc(messages, i);
      match messages[i].text {
        case None =>
        case Some(text) =>
          if |Tokens(text)| > 1 {
            sentences := sentences + [text];
          }
      }
    }
    assert messages[..|messages|] == messages;
  }

  /** One more record adds its text when that is a sentence, and nothing otherwise. */
  lemma {:induction false} KeptSnoc(messages: seq<Message>, i: nat)
    requires i < |messages|
    ensures Kept(messages[..i + 1]) == Kept(messages[..i]) +
            (if messages[i].text.Some? && IsSentence(messages[i].text.value) then [messages[i].text.value] else [])
  {
    assert [messages[i]][1..] == [];
    KeptConcat(messages[..i], [messages[i]]);
    assert messages[..i + 1] == messages[..i] + [messages[i]];
  }

  /** Extraction works record by record: the sentences of two runs of records follow each other. */
  lemma {:induction false} KeptConcat(a: seq<Message>, b: seq<Message>)
    ensures Kept(a + b) == Kept(a) + Kept(b)
  {
    if a == [] {
      assert a + b == b;
    } else {
      assert (a + b)[1..] == a[1..] + b;
      KeptConcat(a[1..], b);
    }
  }

  /** A text is among the sentences of a file exactly when some record carries it and it is a sentence. */
  lemma {:induction false} KeptMembership(messages: seq<Message>, s: string)
    ensures s in Kept(messages) <==>
      (exists i :: 0 <= i < |messages| && messages[i].text == Some(s)) && IsSentence(s)
  {
    if messages != [] {
      KeptMembership(messages[1..], s);
      if exists i :: 0 <= i < |messages| && messages[i].text == Some(s) {
        var i :| 0 <= i < |messages| && messages[i].text == Some(s);
        if i > 0 {
          assert messages[1..][i - 1].text == Some(s);
        }
      }
      if exists i :: 0 <= i < |messages[1..]| && messages[1..][i].text == Some(s) {
        var i :| 0 <= i < |messages[1..]| && messages[1..][i].text == Some(s);
        assert messages[i + 1].text == Some(s);
      }
    }
  }

  /** `a` can be obtained from `b` by deleting elements. */
  predicate IsSubsequence<T(==)>(a: seq<T>, b: seq<T>) {
    if a == [] then true
    else if b == [] then false
    else (a[0] == b[0] && IsSubsequence(a[1..], b[1..])) || IsSubsequence(a, b[1..])
  }

  lemma {:induction false} SubsequencePrepend<T>(a: seq<T>, x: T, b: seq<T>)
    requires IsSubsequence(a, b)
    ensures IsSubsequence(a, [x] + b)
  {
  }

  /** The sentences of a file are a subsequence of its present texts: nothing reordered, nothing altered. */
  lemma {:induction false} KeptIsSubsequence(messages: seq<Message>)
    ensures IsSubsequence(Kept(messages), Present(messages))
  {
    if messages != [] {
      KeptIsSubsequence(messages[1..]);
      var m := messages[0];
      if m.text.Some? {
        assert Present(messages) == [m.text.value] + Present(messages[1..]);
        assert Present(messages)[1..] == Present(messages[1..]);
        if IsSentence(m.text.value) {
          assert Kept(messages) == [m.text.value] + Kept(messages[1..]);
          assert Kept(messages)[1..] == Kept(messages[1..]);
        } else {
          assert Kept(messages) == Kept(messages[1..]);
          SubsequencePrepend(Kept(messages), m.text.value, Present(messages[1..]));
        }
      } else {
        assert Present(messages) == Present(messages[1..]);
        assert Kept(messages) == Kept(messages[1..]);
      }
    }
  }

  // ---------------------------------------------------------------------------
  // Merging the per-file lists (src/main.rs:60-61, 70, 78-82)

  /** The per-file lists one after another. */
  function Flatten(days: seq<seq<string>>): seq<string> {
    if days == [] then [] else days[0] + Flatten(days[1..])
  }

  lemma {:induction false} FlattenConcat(a: seq<seq<string>>, b: seq<seq<string>>)
    ensures Flatten(a + b) == Flatten(a) + Flatten(b)
  {
    if a == [] {
      assert a + b == b;
    } else {
      assert (a + b)[1..] == a[1..] + b;
      FlattenConcat(a[1..], b);
    }
  }

  /**
   * The lists the workers send, in selection order: one list per selected
   * path. A file that cannot be read or parsed (absent from `archives`) sends
   * nothing, because its worker panics before `send`.
   */
  function Sent(paths: seq<string>, archives: map<string, seq<Message>>): seq<seq<string>> {
    if paths == [] then []
    else (if paths[0] in archives then [Kept(archives[paths[0]])] else []) + Sent(paths[1..], archives)
  }

  /** The sentences of the whole history, taking the lists in selection order. */
  function Loaded(root: seq<Entry>, archives: map<string, seq<Message>>): seq<string> {
    Flatten(Sent(SelectPaths(root), archives))
  }

  /**
   * The receiving loop: each list taken off the channel, each sentence in it
   * fed to the chain. `fed` records the `feed_str` calls in order.
   */
  method FeedChain(received: seq<seq<string>>) returns (fed: seq<string>)
    ensures fed == Flatten(received)
  {
    fed := [];
    for d := 0 to |received|
      invariant fed == Flatten(received[..d])
    {
      var day := received[d];
      ghost var before := fed;
      for k := 0 to |day|
        invariant fed == before + day[..k]
      {
        fed := fed + [day[k]];
      }
      assert day[..|day|] == day;
      assert received[..d + 1] == received[..d] + [day];
      FlattenConcat(received[..d], [day]);
      assert Flatten([day]) == day + Flatten([]);
    }
    assert received[..|received|] == received;
  }

  /**
   * The lists arrive in whatever order the workers finish; every arrival order
   * feeds the chain the same sentences with the same multiplicities.
   */
  lemma {:induction false} MergeOrderIrrelevant(sent: seq<seq<string>>, received: seq<seq<string>>)
    requires multiset(sent) == multiset(received)
    ensures multiset(Flatten(sent)) == multiset(Flatten(received))
    decreases |sent|
  {
    if sent == [] {
      assert |received| == |multiset(received)| == 0;
    } else {
      var x := sent[0];
      assert x in multiset(received);
      var i :| 0 <= i < |received| && received[i] == x;
      var rest := received[..i] + received[i + 1..];
      assert received == received[..i] + [x] + received[i + 1..];
      assert multiset(rest) == multiset(received) - multiset{x};
      assert sent == [x] + sent[1..];
      assert multiset(sent[1..]) == multiset(sent) - multiset{x};
      MergeOrderIrrelevant(sent[1..], rest);
      FlattenWithout(received, i);
      assert Flatten(sent) == x + Flatten(sent[1..]);
    }
  }

  /** Taking one list out of the middle takes exactly its sentences out of the flattening. */
  lemma {:induction false} FlattenWithout(days: seq<seq<string>>, i: nat)
    requires i < |days|
    ensures multiset(Flatten(days)) == multiset(days[i]) + multiset(Flatten(days[..i] + days[i + 1..]))
  {
    var before, x, after := days[..i], days[i], days[i + 1..];
    assert days == (before + [x]) + after;
    FlattenConcat(before + [x], after);
    FlattenConcat(before, [x]);
    assert Flatten([x]) == x + Flatten([]);
    assert Flatten(before + [x]) == Flatten(before) + x;
    assert Flatten(days) == (Flatten(before) + x) + Flatten(after);
    FlattenConcat(before, after);
    calc {
      multiset(Flatten(days));
      multiset(Flatten(before)) + multiset(x) + multiset(Flatten(after));
      multiset(x) + multiset(Flatten(before) + Flatten(after));
      multiset(x) + multiset(Flatten(before + after));
    }
  }

  lemma {:induction false} FlattenMembership(days: seq<seq<string>>, s: string)
    ensures s in Flatten(days) <==> exists d :: d in days && s in d
  {
    if days != [] {
      FlattenMembership(days[1..], s);
      assert days == [days[0]] + days[1..];
    }
  }

  lemma {:induction false} SentMembership(paths: seq<string>, archives: map<string, seq<Message>>, d: seq<string>)
    ensures d in Sent(paths, archives) <==> exists p :: p in paths && p in archives && d == Kept(archives[p])
  {
    if paths != [] {
      SentMembership(paths[1..], archives, d);
      assert paths == [paths[0]] + paths[1..];
    }
  }

  /**
   * A text is in the loaded history exactly when a selected, readable archive
   * file holds a record carrying it and the text is a sentence.
   */
  lemma {:induction false} HistoryMembership(root: seq<Entry>, archives: map<string, seq<Message>>, s: string)
    ensures s in Loaded(root, archives) <==>
      exists p :: p in SelectPaths(root) && p in archives && s in Kept(archives[p])
  {
    var paths := SelectPaths(root);
    FlattenMembership(Sent(paths, archives), s);
    if s in Loaded(root, archives) {
      var d :| d in Sent(paths, archives) && s in d;
      SentMembership(paths, archives, d);
    }
    if exists p :: p in paths && p in archives && s in Kept(archives[p]) {
      var p :| p in paths && p in archives && s in Kept(archives[p]);
      SentMembership(paths, archives, Kept(archives[p]));
    }
  }

}
