/**
 * Character and string helpers shared by the path functions and the two
 * hand-written regular expressions. Strings stand for byte strings: every
 * character is one byte of an ASCII path.
 */
module Strings {

  /** The regex class `\w`, restricted to ASCII: `[A-Za-z0-9_]`. */
  predicate IsWordChar(c: char) {
    ('a' <= c <= 'z') || ('A' <= c <= 'Z') || ('0' <= c <= '9') || c == '_'
  }

  /** Every character of `s` is a word character (`\w*` matches all of `s`). */
  predicate AllWord(s: string) {
    forall i :: 0 <= i < |s| ==> IsWordChar(s[i])
  }

  predicate StartsWith(s: string, prefix: string) {
    |prefix| <= |s| && s[..|prefix|] == prefix
  }

  predicate EndsWith(s: string, suffix: string) {
    |suffix| <= |s| && s[|s| - |suffix|..] == suffix
  }

  /** Index of the last occurrence of `c` in `s`, or -1 (Rust's `rfind`). */
  function LastIndexOf(s: string, c: char): (r: int)
    ensures -1 <= r < |s|
    ensures r >= 0 ==> s[r] == c
    ensures forall k :: r < k < |s| ==> s[k] != c
  {
    if s == [] then -1
    else if s[|s| - 1] == c then |s| - 1
    else LastIndexOf(s[..|s| - 1], c)
  }

  /** Index of the first occurrence of `c` in `s`, or -1 (Rust's `find`). */
  function FirstIndexOf(s: string, c: char): (r: int)
    ensures -1 <= r < |s|
    ensures r >= 0 ==> s[r] == c
    ensures forall k :: 0 <= k < |s| && (r < 0 || k < r) ==> s[k] != c
  {
    if s == [] then -1
    else if s[0] == c then 0
    else var k := FirstIndexOf(s[1..], c); if k < 0 then -1 else k + 1
  }

  /** Length of the longest prefix of `s` made of word characters. */
  function WordPrefixLength(s: string): (k: nat)
    ensures k <= |s| && AllWord(s[..k])
    ensures k < |s| ==> !IsWordChar(s[k])
  {
    if s == [] || !IsWordChar(s[0]) then 0
    else
      var k := 1 + WordPrefixLength(s[1..]);
      assert s[..k] == [s[0]] + s[1..][..k - 1];
      k
  }

  /** A word-only prefix followed by a non-word byte (or the end) is the longest one. */
  lemma {:induction false} WordPrefixLengthIs(s: string, k: nat)
    requires k <= |s| && AllWord(s[..k]) && (k < |s| ==> !IsWordChar(s[k]))
    ensures WordPrefixLength(s) == k
  {
    if k > 0 {
      assert s[0] == s[..k][0];
      var t := s[1..];
      var u := t[..k - 1];
      assert AllWord(u) by {
        forall i | 0 <= i < |u| ensures IsWordChar(u[i]) {
          assert u[i] == s[..k][i + 1];
        }
      }
      if k - 1 < |t| {
        assert t[k - 1] == s[k];
      }
      WordPrefixLengthIs(t, k - 1);
    }
  }

  lemma ConcatAssociative(a: string, b: string, c: string)
    ensures a + (b + c) == (a + b) + c
  {
  }

  lemma {:induction false} AllWordSplit(s: string, k: nat)
    requires k <= |s|
    ensures AllWord(s) <==> AllWord(s[..k]) && AllWord(s[k..])
  {
    if AllWord(s[..k]) && AllWord(s[k..]) {
      forall i | 0 <= i < |s| ensures IsWordChar(s[i]) {
        if i < k { assert s[i] == s[..k][i]; } else { assert s[i] == s[k..][i - k]; }
      }
    }
  }

  /** A word-only string contains neither a slash nor a dot nor a newline. */
  lemma WordHasNoSeparator(s: string, i: nat)
    requires AllWord(s) && i < |s|
    ensures s[i] != '/' && s[i] != '.' && s[i] != '\n'
  {
    assert IsWordChar(s[i]);
  }
}
