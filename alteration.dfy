/**
 * Test-word stripping (src/alt/path/alteration/mod.rs): `strip_test_words`
 * replaces the matches of one pattern by its capture group `p`. The pattern
 * is anchored at the end only, and reads
 *   an optional `test_`, then the core `p` (one or more word characters,
 *   lazily), then an optional marker (one of `Markers`, tried in order),
 *   then an optional `.` followed by word characters, then the end.
 * The regex engine picks the leftmost start at which the pattern matches,
 * and at that start the first parse in priority order: `test_` taken
 * before skipped, the shortest core first. `FindMatch` computes that match
 * by scanning; `Parse` and `LeftmostFirst` say what it must be, and
 * `FindMatchIsLeftmostFirst` proves the two agree.
 */
module Alteration {
  import opened Wrappers
  import opened Strings

  /** The marker alternatives, in the pattern's order. */
  const Markers: seq<string> :=
    ["_rake_spec", "_spec", "_rake_test", "_test", "_steps", "Tests", "UITests", "Specs", "UISpecs", "Test", "Spec", "Suite"]

  /**
   * `m` is one of `list`, unfolded one element at a time (so that the
   * verifier does not expand the whole marker list wherever a marker is
   * mentioned); `InListIsIn` shows it is sequence membership.
   */
  predicate InList(m: string, list: seq<string>) {
    list != [] && (list[0] == m || InList(m, list[1..]))
  }

  lemma {:induction false} InListIsIn(m: string, list: seq<string>)
    ensures InList(m, list) <==> m in list
  {
    if list != [] {
      InListIsIn(m, list[1..]);
      assert list == [list[0]] + list[1..];
    }
  }

  /** The optional marker group matches `m`. */
  predicate MarkerOrEmpty(m: string) {
    m == "" || InList(m, Markers)
  }

  /** A byte that no marker starts with. */
  predicate MayNotStartMarker(c: char) {
    c != '_' && c != 'T' && c != 'U' && c != 'S'
  }

  predicate NoMarkerInitial(s: string) {
    forall k :: 0 <= k < |s| ==> MayNotStartMarker(s[k])
  }

  /** 4 to 10 word characters, the first one of `_`, `T`, `U` and `S`. */
  predicate MarkerShaped(m: string) {
    AllWord(m) && 4 <= |m| <= 10 && !MayNotStartMarker(m[0])
  }

  lemma MarkerListShaped()
    ensures forall k :: 0 <= k < |Markers| ==> MarkerShaped(Markers[k])
  {
    forall k | 0 <= k < |Markers| ensures MarkerShaped(Markers[k]) {
      MarkerShapedAt(k, Markers[k]);
    }
  }

  /** The `k`-th marker, checked byte by byte. */
  lemma MarkerShapedAt(k: nat, m: string)
    requires k < |Markers| && m == Markers[k]
    ensures MarkerShaped(m)
  {
    if k == 0 {
      assert m == "_rake_spec";
      assert IsWordChar(m[0]); assert IsWordChar(m[1]); assert IsWordChar(m[2]); assert IsWordChar(m[3]); assert IsWordChar(m[4]); assert IsWordChar(m[5]); assert IsWordChar(m[6]); assert IsWordChar(m[7]); assert IsWordChar(m[8]); assert IsWordChar(m[9]);
    } else if k == 1 {
      assert m == "_spec";
      assert IsWordChar(m[0]); assert IsWordChar(m[1]); assert IsWordChar(m[2]); assert IsWordChar(m[3]); assert IsWordChar(m[4]);
    } else if k == 2 {
      assert m == "_rake_test";
      assert IsWordChar(m[0]); assert IsWordChar(m[1]); assert IsWordChar(m[2]); assert IsWordChar(m[3]); assert IsWordChar(m[4]); assert IsWordChar(m[5]); assert IsWordChar(m[6]); assert IsWordChar(m[7]); assert IsWordChar(m[8]); assert IsWordChar(m[9]);
    } else if k == 3 {
      assert m == "_test";
      assert IsWordChar(m[0]); assert IsWordChar(m[1]); assert IsWordChar(m[2]); assert IsWordChar(m[3]); assert IsWordChar(m[4]);
    } else if k == 4 {
      assert m == "_steps";
      assert IsWordChar(m[0]); assert IsWordChar(m[1]); assert IsWordChar(m[2]); assert IsWordChar(m[3]); assert IsWordChar(m[4]); assert IsWordChar(m[5]);
    } else if k == 5 {
      assert m == "Tests";
      assert IsWordChar(m[0]); assert IsWordChar(m[1]); assert IsWordChar(m[2]); assert IsWordChar(m[3]); assert IsWordChar(m[4]);
    } else if k == 6 {
      assert m == "UITests";
      assert IsWordChar(m[0]); assert IsWordChar(m[1]); assert IsWordChar(m[2]); assert IsWordChar(m[3]); assert IsWordChar(m[4]); assert IsWordChar(m[5]); assert IsWordChar(m[6]);
    } else if k == 7 {
      assert m == "Specs";
      assert IsWordChar(m[0]); assert IsWordChar(m[1]); assert IsWordChar(m[2]); assert IsWordChar(m[3]); assert IsWordChar(m[4]);
    } else if k == 8 {
      assert m == "UISpecs";
      assert IsWordChar(m[0]); assert IsWordChar(m[1]); assert IsWordChar(m[2]); assert IsWordChar(m[3]); assert IsWordChar(m[4]); assert IsWordChar(m[5]); assert IsWordChar(m[6]);
    } else if k == 9 {
      assert m == "Test";
      assert IsWordChar(m[0]); assert IsWordChar(m[1]); assert IsWordChar(m[2]); assert IsWordChar(m[3]);
    } else if k == 10 {
      assert m == "Spec";
      assert IsWordChar(m[0]); assert IsWordChar(m[1]); assert IsWordChar(m[2]); assert IsWordChar(m[3]);
    } else if k == 11 {
      assert m == "Suite";
      assert IsWordChar(m[0]); assert IsWordChar(m[1]); assert IsWordChar(m[2]); assert IsWordChar(m[3]); assert IsWordChar(m[4]);
    }
  }

  lemma {:induction false} InListIndex(m: string, list: seq<string>)
    requires InList(m, list)
    ensures exists k :: 0 <= k < |list| && list[k] == m
  {
    if list[0] != m {
      InListIndex(m, list[1..]);
      var k :| 0 <= k < |list| - 1 && list[1..][k] == m;
      assert list[k + 1] == m;
    }
  }

  lemma {:induction false} InListAt(list: seq<string>, k: nat)
    requires k < |list|
    ensures InList(list[k], list)
  {
    if k > 0 {
      InListAt(list[1..], k - 1);
    }
  }

  /** Every marker has that shape. */
  lemma MarkersShape(m: string)
    requires InList(m, Markers)
    ensures MarkerShaped(m)
  {
    MarkerListShaped();
    InListIndex(m, Markers);
  }

  /**
   * One way the pattern matches the whole of `t`: `t[..a]` is the optional
   * `test_`, `t[a..b]` the core, `t[b..c]` the optional marker and `t[c..]`
   * the optional extension.
   */
  ghost predicate Parse(t: string, a: nat, b: nat, c: nat) {
    a < b <= c <= |t|
    && (a == 0 || (a == 5 && t[..5] == "test_"))
    && AllWord(t[a..b])
    && MarkerOrEmpty(t[b..c])
    && (c == |t| || (t[c] == '.' && c + 1 < |t| && AllWord(t[c + 1..])))
  }

  /** Nowhere in `s` does the pattern match. */
  ghost predicate NoMatch(s: string) {
    forall i: nat, a: nat, b: nat, c: nat :: i <= |s| ==> !Parse(s[i..], a, b, c)
  }

  /**
   * The match the regex engine reports: it starts at `i`, the leftmost
   * start where the pattern matches; there `test_` is taken whenever a
   * parse takes it, and the core `s[i..][a..b]` is the shortest of all
   * parses with that choice.
   */
  ghost predicate LeftmostFirst(s: string, i: nat, a: nat, b: nat) {
    i <= |s|
    && (exists c: nat :: Parse(s[i..], a, b, c))
    && (forall i': nat, a': nat, b': nat, c': nat :: i' < i ==> !Parse(s[i'..], a', b', c'))
    && (a == 0 ==> forall b': nat, c': nat :: !Parse(s[i..], 5, b', c'))
    && (forall b': nat, c': nat :: b' < b ==> !Parse(s[i..], a, b', c'))
  }

  /** At most one match is leftmost-first. */
  lemma LeftmostFirstIsUnique(s: string, i: nat, a: nat, b: nat, i2: nat, a2: nat, b2: nat)
    requires LeftmostFirst(s, i, a, b) && LeftmostFirst(s, i2, a2, b2)
    ensures i == i2 && a == a2 && b == b2
  {
    var c: nat :| Parse(s[i..], a, b, c);
    var c2: nat :| Parse(s[i2..], a2, b2, c2);
  }

  /** `t` is `\w+` or `\w+\.\w+`, and `t[..j]` is the part before the dot. */
  predicate Segment(t: string, j: nat) {
    0 < j <= |t| && AllWord(t[..j]) && (j == |t| || (t[j] == '.' && j + 1 < |t| && AllWord(t[j + 1..])))
  }

  /** Every parse spans a segment, split where the extension starts. */
  lemma ParseIsSegment(t: string, a: nat, b: nat, c: nat)
    ensures Parse(t, a, b, c) ==> Segment(t, c)
  {
    if Parse(t, a, b, c) {
      var prefix, core, marker := t[..c][..a], t[..c][a..b], t[..c][b..];
      assert prefix == t[..a];
      assert core == t[a..b];
      assert marker == t[b..c];
      if marker != "" {
        MarkersShape(marker);
      }
      assert AllWord(prefix) by {
        if a == 5 {
          var testPrefix := "test_";
          assert prefix == testPrefix;
          assert testPrefix[0] == 't' && testPrefix[1] == 'e' && testPrefix[2] == 's' && testPrefix[3] == 't' && testPrefix[4] == '_';
        }
      }
      AllWordSplit(t[..c][a..], b - a);
      assert t[..c][a..][..b - a] == core && t[..c][a..][b - a..] == marker;
      AllWordSplit(t[..c], a);
    }
  }

  /** The part before the dot is the longest word prefix, so a segment has one split. */
  lemma SegmentEndIsWordPrefix(t: string)
    ensures forall j: nat :: Segment(t, j) ==> j == WordPrefixLength(t)
  {
    forall j: nat | Segment(t, j) ensures j == WordPrefixLength(t) {
      WordPrefixLengthIs(t, j);
    }
  }

  /** Whether the pattern can match all of `t`, and if so where its extension starts. */
  function SegmentEnd(t: string): (r: Option<nat>)
    ensures r.Some? ==> Segment(t, r.value)
    ensures r.None? ==> forall j: nat :: !Segment(t, j)
  {
    SegmentEndIsWordPrefix(t);
    var j := WordPrefixLength(t);
    if Segment(t, j) then Some(j) else None
  }

  /** The engine's search: the first start at or after `i` where the pattern can match. */
  function FirstMatchStart(s: string, i: nat): (r: Option<(nat, nat)>)
    requires i <= |s|
    ensures r.Some? ==> i <= r.value.0 <= |s| && Segment(s[r.value.0..], r.value.1)
    ensures forall i': nat, j: nat :: i <= i' <= |s| && (r.None? || i' < r.value.0) ==> !Segment(s[i'..], j)
    decreases |s| - i
  {
    match SegmentEnd(s[i..])
    case Some(j) => Some((i, j))
    case None => if i == |s| then None else FirstMatchStart(s, i + 1)
  }

  /**
   * The lazy core: from position `b` on, the first cut of `w` that leaves
   * a marker or nothing behind it.
   */
  function ShortestCore(w: string, b: nat): (r: nat)
    requires 0 < b <= |w|
    ensures b <= r <= |w| && MarkerOrEmpty(w[r..])
    ensures forall b': nat :: b <= b' < r ==> !MarkerOrEmpty(w[b'..])
    decreases |w| - b
  {
    if MarkerOrEmpty(w[b..]) then b else ShortestCore(w, b + 1)
  }

  /**
   * The core the pattern captures from a non-empty word: `w` without the
   * longest marker whose removal leaves something.
   */
  function MarkerCut(w: string): (p: string)
    requires w != ""
    ensures p != "" && StartsWith(w, p) && MarkerOrEmpty(w[|p|..])
  {
    w[..ShortestCore(w, 1)]
  }

  /** No marker longer than the one `MarkerCut` removes ends the word and leaves a core. */
  lemma MarkerCutIsLongest(w: string, m: string)
    requires w != ""
    ensures InList(m, Markers) && |m| < |w| && EndsWith(w, m) ==> |m| <= |w| - |MarkerCut(w)|
  {
    if |m| <= |w| {
      assert EndsWith(w, m) ==> MarkerOrEmpty(m) == MarkerOrEmpty(w[|w| - |m|..]);
    }
  }

  /** The greedy `(test_)?`: it is taken whenever a core is left after it. */
  function TestPrefixLength(w: string): nat {
    if |w| > 5 && w[..5] == "test_" then 5 else 0
  }

  /** `w` without the `test_` the pattern would take in front of its core. */
  function DropTestPrefix(w: string): string {
    w[TestPrefixLength(w)..]
  }

  /** A match: it starts at `start`, and its core is `s[start..][coreFrom..coreTo]`. */
  datatype Match = Match(start: nat, coreFrom: nat, coreTo: nat)

  /** Where the core of a match over the word `w` ends: after the `test_` and the marker cut. */
  function CoreEnd(w: string): (b: nat)
    requires w != ""
    ensures TestPrefixLength(w) < b <= |w|
  {
    TestPrefixLength(w) + |MarkerCut(DropTestPrefix(w))|
  }

  /** The leftmost-first match of the pattern in `s`, if any. */
  function FindMatch(s: string): (r: Option<Match>)
    ensures r.Some? ==> r.value.start <= |s| && r.value.coreFrom < r.value.coreTo <= |s| - r.value.start
  {
    match FirstMatchStart(s, 0)
    case None => None
    case Some((i, j)) =>
      var w := s[i..][..j];
      Some(Match(i, TestPrefixLength(w), CoreEnd(w)))
  }

  /**
   * `strip_test_words`: `replace_all` with `$p`. Every match ends at the
   * end of `filename` and none can start there (the core is not empty), so
   * at most one match is replaced, by its core.
   */
  function StripTestWords(filename: string): (r: string)
    ensures |r| <= |filename|
  {
    match FindMatch(filename)
    case None => filename
    case Some(m) => filename[..m.start] + filename[m.start..][m.coreFrom..m.coreTo]
  }

  /** Before the first start the scan finds, no parse exists. */
  lemma NoParseBeforeFirstStart(s: string)
    ensures var first := FirstMatchStart(s, 0);
      forall i: nat, a: nat, b: nat, c: nat :: i <= |s| && (first.None? || i < first.value.0) ==> !Parse(s[i..], a, b, c)
  {
    var first := FirstMatchStart(s, 0);
    forall i: nat, a: nat, b: nat, c: nat | i <= |s| && (first.None? || i < first.value.0)
      ensures !Parse(s[i..], a, b, c)
    {
      ParseIsSegment(s[i..], a, b, c);
    }
  }

  /** On a segment, the chosen `test_` length and core end give a parse. */
  lemma ChosenCoreParses(t: string, j: nat)
    requires Segment(t, j)
    ensures Parse(t, TestPrefixLength(t[..j]), CoreEnd(t[..j]), j)
  {
    var w := t[..j];
    var a := TestPrefixLength(w);
    var d := DropTestPrefix(w);
    var p := MarkerCut(d);
    var b := a + |p|;
    assert b == CoreEnd(w);
    assert a == 0 || (a == 5 && t[..5] == "test_") by {
      if a == 5 {
        assert t[..5] == w[..5];
      }
    }
    assert AllWord(t[a..b]) by {
      AllWordSplit(w, a);
      AllWordSplit(d, |p|);
      assert d[..|p|] == p == t[a..b];
    }
    assert MarkerOrEmpty(t[b..j]) by {
      assert d[|p|..] == t[b..j];
    }
  }

  /** On a segment, a parse that takes `test_` means the chosen length takes it too. */
  lemma TestPrefixIsGreedy(t: string, j: nat, b: nat, c: nat)
    requires Segment(t, j)
    ensures Parse(t, 5, b, c) ==> TestPrefixLength(t[..j]) == 5
  {
    SegmentEndIsWordPrefix(t);
    ParseIsSegment(t, 5, b, c);
    if Parse(t, 5, b, c) {
      assert t[..j][..5] == t[..5];
    }
  }

  /** On a segment, no parse with the chosen `test_` length has a shorter core. */
  lemma CoreIsLazy(t: string, j: nat, b: nat, c: nat)
    requires Segment(t, j) && b < CoreEnd(t[..j])
    ensures !Parse(t, TestPrefixLength(t[..j]), b, c)
  {
    SegmentEndIsWordPrefix(t);
    ParseIsSegment(t, TestPrefixLength(t[..j]), b, c);
    var w := t[..j];
    var a := TestPrefixLength(w);
    if a < b < j {
      var m := w[a..][b - a..];
      assert m == t[b..j];
      assert EndsWith(w[a..], m);
      MarkerCutIsLongest(w[a..], m);
    }
  }

  /** The scanning search finds exactly the match the pattern's priorities select. */
  lemma FindMatchIsLeftmostFirst(s: string)
    ensures FindMatch(s).None? <==> NoMatch(s)
    ensures FindMatch(s).Some? ==>
      LeftmostFirst(s, FindMatch(s).value.start, FindMatch(s).value.coreFrom, FindMatch(s).value.coreTo)
  {
    NoParseBeforeFirstStart(s);
    var first := FirstMatchStart(s, 0);
    if first.Some? {
      var (i, j) := first.value;
      var t := s[i..];
      ChosenCoreParses(t, j);
      forall b: nat, c: nat ensures TestPrefixLength(t[..j]) == 0 ==> !Parse(t, 5, b, c) {
        TestPrefixIsGreedy(t, j, b, c);
      }
      forall b: nat, c: nat | b < CoreEnd(t[..j]) ensures !Parse(t, TestPrefixLength(t[..j]), b, c) {
        CoreIsLazy(t, j, b, c);
      }
    }
  }

  /** `strip_test_words` agrees with the pattern: no match, no change; otherwise the match becomes its core. */
  lemma StripTestWordsReplacesMatch(s: string, i: nat, a: nat, b: nat)
    ensures NoMatch(s) ==> StripTestWords(s) == s
    ensures LeftmostFirst(s, i, a, b) ==> StripTestWords(s) == s[..i] + s[i..][a..b]
  {
    FindMatchIsLeftmostFirst(s);
    if LeftmostFirst(s, i, a, b) {
      var m := FindMatch(s).value;
      LeftmostFirstIsUnique(s, i, a, b, m.start, m.coreFrom, m.coreTo);
    }
  }

  /** A file name `w` or `w.ext` with word-only `w` and `ext` matches as a whole, from its start. */
  lemma WholeNameMatches(w: string, ext: string)
    requires w != "" && AllWord(w) && AllWord(ext)
    ensures var s := if ext == "" then w else w + "." + ext;
      FirstMatchStart(s, 0) == Some((0, |w|))
  {
    var s := if ext == "" then w else w + "." + ext;
    assert s[..|w|] == w;
    if ext != "" {
      assert s[|w| + 1..] == ext;
    }
    assert Segment(s, |w|);
    SegmentEndIsWordPrefix(s);
    assert s[0..] == s;
  }

  lemma SliceOfPrefix(s: string, j: nat, a: nat, b: nat)
    requires a <= b <= j <= |s|
    ensures s[a..b] == s[..j][a..][..b - a]
  {
  }

  /** When the match starts at the start, its core is the marker cut of the word part. */
  lemma StripMatchFromStart(s: string, j: nat)
    requires FirstMatchStart(s, 0) == Some((0, j))
    ensures StripTestWords(s) == MarkerCut(DropTestPrefix(s[..j]))
  {
    assert s[0..] == s;
    var w := s[..j];
    var a, b := TestPrefixLength(w), CoreEnd(w);
    assert FindMatch(s) == Some(Match(0, a, b));
    var d := DropTestPrefix(w);
    var p := MarkerCut(d);
    assert StripTestWords(s) == s[a..b];
    SliceOfPrefix(s, j, a, b);
  }

  /**
   * For such a file name the result is `w` without a leading `test_` and
   * without its longest marker.
   */
  lemma StripTestWordsOfFileName(w: string, ext: string)
    requires w != "" && AllWord(w) && AllWord(ext)
    ensures StripTestWords(if ext == "" then w else w + "." + ext) == MarkerCut(DropTestPrefix(w))
  {
    var s := if ext == "" then w else w + "." + ext;
    WholeNameMatches(w, ext);
    StripMatchFromStart(s, |w|);
    assert s[..|w|] == w;
  }

  /** The result for such a file name is a non-empty piece of `w`. */
  lemma StripTestWordsIsPieceOfName(w: string, ext: string)
    requires w != "" && AllWord(w) && AllWord(ext)
    ensures var r := StripTestWords(if ext == "" then w else w + "." + ext);
      r != "" && exists k :: 0 <= k <= |w| && StartsWith(w[k..], r)
  {
    StripTestWordsOfFileName(w, ext);
    var r := StripTestWords(if ext == "" then w else w + "." + ext);
    assert StartsWith(w[TestPrefixLength(w)..], r);
  }

  /** A word ending in no marker is its own marker cut. */
  lemma MarkerCutWithoutMarker(w: string)
    requires w != "" && forall m :: InList(m, Markers) ==> !EndsWith(w, m)
    ensures MarkerCut(w) == w
  {
    var p := MarkerCut(w);
    var rest := w[|p|..];
    assert EndsWith(w, rest) by {
      assert w[|w| - |rest|..] == rest;
    }
    assert !InList(rest, Markers);
    assert rest == [];
    assert w == w[..|p|] + rest;
  }

  /** A name ending in no marker, and not starting with `test_`, loses only its extension. */
  lemma StripTestWordsWithoutMarker(w: string, ext: string)
    requires w != "" && AllWord(w) && AllWord(ext)
    requires !StartsWith(w, "test_") && forall m :: InList(m, Markers) ==> !EndsWith(w, m)
    ensures StripTestWords(if ext == "" then w else w + "." + ext) == w
  {
    StripTestWordsOfFileName(w, ext);
    assert DropTestPrefix(w) == w;
    MarkerCutWithoutMarker(w);
  }

  /** A leading `test_` goes, then the longest marker of what is left. */
  lemma StripTestWordsDropsTestPrefix(rest: string, ext: string)
    requires rest != "" && AllWord(rest) && AllWord(ext)
    ensures var w := "test_" + rest;
      StripTestWords(if ext == "" then w else w + "." + ext) == MarkerCut(rest)
  {
    var w := "test_" + rest;
    assert AllWord(w) by {
      AllWordSplit(w, 5);
      assert w[5..] == rest;
      var testPrefix := "test_";
      assert w[..5] == testPrefix;
      assert testPrefix[0] == 't' && testPrefix[1] == 'e' && testPrefix[2] == 's' && testPrefix[3] == 't' && testPrefix[4] == '_';
    }
    assert w[..5] == "test_" && w[5..] == rest;
    StripTestWordsOfFileName(w, ext);
  }

  /**
   * `MarkerCut` of `head + tail + m` with marker (or nothing) `m`, when
   * `tail` shows no marker's first byte and reaches back far enough that
   * no longer marker could end the word.
   */
  lemma MarkerCutOfMarked(head: string, tail: string, m: string)
    requires head != "" && NoMarkerInitial(tail) && (|head| == 1 || |tail| >= 10) && MarkerOrEmpty(m)
    ensures MarkerCut(head + tail + m) == head + tail
  {
    var base, w := head + tail, head + tail + m;
    var p := MarkerCut(w);
    assert w[|base|..] == m;
    if |p| < |base| {
      var m' := w[|p|..];
      MarkersShape(m');
    } else if |p| > |base| {
      MarkerCutIsLongest(w, m);
    }
    assert w[..|base|] == base;
  }
}
