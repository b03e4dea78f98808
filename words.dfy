/**
 * Whitespace tokenisation and joining of text, as the bot uses them:
 * `str::split_whitespace` decides whether a logged message is a sentence
 * (src/main.rs:66) and `[String]::join(" ")` turns a generated token list
 * into reply text (src/main.rs:128).
 */
module Words {

  /** Rust's `char::is_whitespace`: the Unicode White_Space property. */
  predicate IsWhitespace(c: char) {
    var n := c as int;
    (0x09 <= n <= 0x0D) || n == 0x20 || n == 0x85 || n == 0xA0 || n == 0x1680
    || (0x2000 <= n <= 0x200A) || n == 0x2028 || n == 0x2029 || n == 0x202F
    || n == 0x205F || n == 0x3000
  }

  /** A token as `split_whitespace` yields it: non-empty, no whitespace in it. */
  predicate IsWord(w: string) {
    |w| > 0 && forall i :: 0 <= i < |w| ==> !IsWhitespace(w[i])
  }

  /** Length of the longest whitespace-free prefix of `s`. */
  function WordLen(s: string): (n: nat)
    ensures n <= |s|
    ensures forall i :: 0 <= i < n ==> !IsWhitespace(s[i])
    ensures n < |s| ==> IsWhitespace(s[n])
  {
    if s == [] || IsWhitespace(s[0]) then 0 else 1 + WordLen(s[1..])
  }

  /** `s.split_whitespace()`: the maximal whitespace-free runs of `s`, in order. */
  function Tokens(s: string): (ts: seq<string>)
    ensures forall k :: 0 <= k < |ts| ==> IsWord(ts[k])
    decreases |s|
  {
    if s == [] then []
    else if IsWhitespace(s[0]) then Tokens(s[1..])
    else
      var n := WordLen(s);
      [s[..n]] + Tokens(s[n..])
  }

  /** `ts.join(" ")`. */
  function Join(ts: seq<string>): string {
    if |ts| == 0 then ""
    else if |ts| == 1 then ts[0]
    else ts[0] + " " + Join(ts[1..])
  }

  /** Some character of `s` is not whitespace. */
  predicate HasWord(s: string) {
    exists i :: 0 <= i < |s| && !IsWhitespace(s[i])
  }

  /** Positions `i < j < k` of `s` hold a non-whitespace, a whitespace and a non-whitespace character. */
  predicate Gap(s: string, i: int, j: int, k: int) {
    0 <= i < j < k < |s| && !IsWhitespace(s[i]) && IsWhitespace(s[j]) && !IsWhitespace(s[k])
  }

  /** `s` holds a non-whitespace character, later a whitespace one, later again a non-whitespace one. */
  ghost predicate HasTwoWords(s: string) {
    exists i, j, k :: Gap(s, i, j, k)
  }

  /** `split_whitespace` yields at least one token exactly when some character is not whitespace. */
  lemma {:induction false} TokensNonEmptyIff(s: string)
    ensures |Tokens(s)| > 0 <==> HasWord(s)
    decreases |s|
  {
    if s == [] {
    } else if IsWhitespace(s[0]) {
      TokensNonEmptyIff(s[1..]);
      if HasWord(s) {
        var i :| 0 <= i < |s| && !IsWhitespace(s[i]);
        assert !IsWhitespace(s[1..][i - 1]);
      }
      if HasWord(s[1..]) {
        var i :| 0 <= i < |s[1..]| && !IsWhitespace(s[1..][i]);
        assert !IsWhitespace(s[i + 1]);
      }
    } else {
      assert !IsWhitespace(s[0]);
    }
  }

  /** Shifting past a leading whitespace character changes neither side of `TwoTokensIff`. */
  lemma {:induction false} HasTwoWordsSkipSpace(s: string)
    requires s != [] && IsWhitespace(s[0])
    ensures HasTwoWords(s) <==> HasTwoWords(s[1..])
  {
    var t := s[1..];
    if HasTwoWords(s) {
      var i, j, k :| Gap(s, i, j, k);
      assert Gap(t, i - 1, j - 1, k - 1);
    }
    if HasTwoWords(t) {
      var i, j, k :| Gap(t, i, j, k);
      assert Gap(s, i + 1, j + 1, k + 1);
    }
  }

  /** After a leading word of length `n`, a second word exists exactly when the rest holds a non-whitespace character. */
  lemma {:induction false} HasTwoWordsAfterWord(s: string, n: nat)
    requires n == WordLen(s) && 0 < n
    ensures HasTwoWords(s) <==> HasWord(s[n..])
  {
    var t := s[n..];
    if HasTwoWords(s) {
      var i, j, k :| Gap(s, i, j, k);
      assert n <= j;
      assert !IsWhitespace(t[k - n]);
    }
    if HasWord(t) {
      var k :| 0 <= k < |t| && !IsWhitespace(t[k]);
      assert IsWhitespace(s[n]);
      assert 0 < k;
      assert Gap(s, 0, n, n + k);
    }
  }

  /** `split_whitespace` yields more than one token exactly when two runs of non-whitespace are separated by whitespace. */
  lemma {:induction false} TwoTokensIff(s: string)
    ensures |Tokens(s)| > 1 <==> HasTwoWords(s)
    decreases |s|
  {
    if s == [] {
    } else if IsWhitespace(s[0]) {
      TwoTokensIff(s[1..]);
      HasTwoWordsSkipSpace(s);
    } else {
      var n := WordLen(s);
      assert Tokens(s) == [s[..n]] + Tokens(s[n..]);
      TokensNonEmptyIff(s[n..]);
      HasTwoWordsAfterWord(s, n);
    }
  }

  /** A whitespace-free string is read back as the single token it is. */
  lemma {:induction false} WordLenOfWordPrefix(w: string, rest: string)
    requires IsWord(w)
    requires rest == [] || IsWhitespace(rest[0])
    ensures WordLen(w + rest) == |w|
  {
    var s := w + rest;
    assert forall i :: 0 <= i < |w| ==> s[i] == w[i];
    assert |w| < |s| ==> s[|w|] == rest[0];
  }

  /**
   * Joining whitespace-free tokens with single spaces and splitting the result
   * on whitespace gives the tokens back.
   */
  lemma {:induction false} TokensOfJoin(ts: seq<string>)
    requires forall k :: 0 <= k < |ts| ==> IsWord(ts[k])
    ensures Tokens(Join(ts)) == ts
  {
    if |ts| == 0 {
    } else if |ts| == 1 {
      var w := ts[0];
      WordLenOfWordPrefix(w, []);
      assert w + [] == w;
      assert w[..|w|] == w && w[|w|..] == [];
    } else {
      var w, j := ts[0], Join(ts[1..]);
      var s := w + " " + j;
      assert s == w + (" " + j);
      WordLenOfWordPrefix(w, " " + j);
      assert s[..|w|] == w;
      assert s[|w|..] == " " + j;
      assert (" " + j)[1..] == j;
      assert IsWhitespace((" " + j)[0]);
      assert Tokens(" " + j) == Tokens(j);
      TokensOfJoin(ts[1..]);
    }
  }

}
