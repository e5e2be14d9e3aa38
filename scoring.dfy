/**
 * Similarity scoring (src/alt/path/scoring/mod.rs): the longest common
 * substring, the similarity ratio built on it, the weighted score of two
 * paths and the batch scorer `score_paths`.
 */
module Scoring {
  import opened Wrappers
  import opened Strings
  import opened PathUtils
  import opened PathNames

  /** `ScoredPath`, the pair `(f32, String)`; the score is a real here. */
  datatype ScoredPath = ScoredPath(score: real, path: string)

  function Max(x: nat, y: nat): nat {
    if x < y then y else x
  }

  /** `a[i..i+k]` and `b[j..j+k]` are the same run of bytes. */
  predicate CommonAt(a: string, b: string, i: nat, j: nat, k: nat) {
    i + k <= |a| && j + k <= |b| && a[i..i + k] == b[j..j + k]
  }

  /**
   * Length of the longest common suffix of `a[..i]` and `b[..j]`, which is
   * what the table holds at cell `(i - 1, j - 1)`.
   */
  function SuffixRun(a: string, b: string, i: nat, j: nat): (r: nat)
    requires i <= |a| && j <= |b|
    ensures r <= i && r <= j
  {
    if i == 0 || j == 0 || a[i - 1] != b[j - 1] then 0 else 1 + SuffixRun(a, b, i - 1, j - 1)
  }

  /** The cell at `(i, j)` measures a common run of `a` and `b` ending there. */
  lemma {:induction false} SuffixRunIsCommonSuffix(a: string, b: string, i: nat, j: nat)
    requires i <= |a| && j <= |b|
    ensures CommonAt(a, b, i - SuffixRun(a, b, i, j), j - SuffixRun(a, b, i, j), SuffixRun(a, b, i, j))
  {
    if i > 0 && j > 0 && a[i - 1] == b[j - 1] {
      SuffixRunIsCommonSuffix(a, b, i - 1, j - 1);
      var r' := SuffixRun(a, b, i - 1, j - 1);
      var s, t := i - 1 - r', j - 1 - r';
      assert a[s..i] == a[s..i - 1] + [a[i - 1]];
      assert b[t..j] == b[t..j - 1] + [b[j - 1]];
    }
  }

  /** ... and the run cannot be extended to the left: it is the longest common suffix. */
  lemma {:induction false} SuffixRunIsMaximal(a: string, b: string, i: nat, j: nat)
    requires i <= |a| && j <= |b|
    ensures var r := SuffixRun(a, b, i, j); r < i && r < j ==> a[i - r - 1] != b[j - r - 1]
  {
    if i > 0 && j > 0 && a[i - 1] == b[j - 1] {
      SuffixRunIsMaximal(a, b, i - 1, j - 1);
      assert SuffixRun(a, b, i, j) == SuffixRun(a, b, i - 1, j - 1) + 1;
    } else {
      assert SuffixRun(a, b, i, j) == 0;
    }
  }

  /** A common run of length `k` ending at `(i, j)` makes the cell there at least `k`. */
  lemma {:induction false} SuffixRunAtLeast(a: string, b: string, i: nat, j: nat, k: nat)
    requires k <= i <= |a| && k <= j <= |b|
    requires CommonAt(a, b, i - k, j - k, k)
    ensures SuffixRun(a, b, i, j) >= k
  {
    if k > 0 {
      var x, y := a[i - k..i], b[j - k..j];
      assert x[k - 1] == a[i - 1] && y[k - 1] == b[j - 1];
      assert x[..k - 1] == a[i - k..i - 1] && y[..k - 1] == b[j - k..j - 1];
      SuffixRunAtLeast(a, b, i - 1, j - 1, k - 1);
    }
  }

  /** Column of a largest cell among `(i, 1) .. (i, j)`, in one-based coordinates (0 when `j` is 0). */
  function RowArg(a: string, b: string, i: nat, j: nat): (k: nat)
    requires i <= |a| && j <= |b|
    ensures k <= j && (j > 0 ==> k > 0)
  {
    if j == 0 then 0
    else
      var k := RowArg(a, b, i, j - 1);
      if k == 0 || SuffixRun(a, b, i, k) < SuffixRun(a, b, i, j) then j else k
  }

  /**
   * No cell among `(i, 1) .. (i, j)` exceeds the one `RowArg` picks. (A
   * lemma rather than a postcondition, so that scoring literal strings
   * does not instantiate it for every cell.)
   */
  lemma {:induction false} RowArgIsMax(a: string, b: string, i: nat, j: nat)
    requires i <= |a| && j <= |b|
    ensures forall j': nat :: 1 <= j' <= j ==> SuffixRun(a, b, i, j') <= SuffixRun(a, b, i, RowArg(a, b, i, j))
  {
    if j > 0 {
      RowArgIsMax(a, b, i, j - 1);
    }
  }

  /** The largest of the cells `(i, 1) .. (i, j)`. */
  function RowMax(a: string, b: string, i: nat, j: nat): nat
    requires i <= |a| && j <= |b|
  {
    SuffixRun(a, b, i, RowArg(a, b, i, j))
  }

  /** Cell of a largest value in the first `n` rows (`(0, 0)` when there is none). */
  function TableArg(a: string, b: string, n: nat): (c: (nat, nat))
    requires n <= |a|
    ensures c.0 <= n && c.1 <= |b|
  {
    if n == 0 then (0, 0)
    else
      var c, k := TableArg(a, b, n - 1), RowArg(a, b, n, |b|);
      if SuffixRun(a, b, c.0, c.1) < SuffixRun(a, b, n, k) then (n, k) else c
  }

  /** No cell of the first `n` rows exceeds the one `TableArg` picks. */
  lemma {:induction false} TableArgIsMax(a: string, b: string, n: nat)
    requires n <= |a|
    ensures var c := TableArg(a, b, n);
      forall i: nat, j: nat :: 1 <= i <= n && 1 <= j <= |b| ==> SuffixRun(a, b, i, j) <= SuffixRun(a, b, c.0, c.1)
  {
    if n > 0 {
      TableArgIsMax(a, b, n - 1);
      RowArgIsMax(a, b, n, |b|);
    }
  }

  /** The largest cell of the first `n` rows. */
  function RowsMax(a: string, b: string, n: nat): nat
    requires n <= |a|
  {
    var c := TableArg(a, b, n);
    SuffixRun(a, b, c.0, c.1)
  }

  /** The largest cell of the whole table is the length of a longest common run. */
  lemma {:induction false} TableMaxIsLongestCommonRun(a: string, b: string)
    ensures exists i: nat, j: nat :: CommonAt(a, b, i, j, RowsMax(a, b, |a|))
    ensures forall i: nat, j: nat, k: nat :: CommonAt(a, b, i, j, k) ==> k <= RowsMax(a, b, |a|)
  {
    var c := TableArg(a, b, |a|);
    var r := RowsMax(a, b, |a|);
    SuffixRunIsCommonSuffix(a, b, c.0, c.1);
    assert CommonAt(a, b, c.0 - r, c.1 - r, r);
    forall i: nat, j: nat, k: nat | CommonAt(a, b, i, j, k) ensures k <= r {
      CommonRunBelowTableMax(a, b, i, j, k);
    }
  }

  lemma CommonRunBelowTableMax(a: string, b: string, i: nat, j: nat, k: nat)
    requires CommonAt(a, b, i, j, k)
    ensures k <= RowsMax(a, b, |a|)
  {
    if k > 0 {
      SuffixRunAtLeast(a, b, i + k, j + k, k);
      TableArgIsMax(a, b, |a|);
      var c := TableArg(a, b, |a|);
      assert SuffixRun(a, b, i + k, j + k) <= SuffixRun(a, b, c.0, c.1);
    }
  }

  /**
   * The length of the longest run of bytes common to `a` and `b`: the
   * largest cell of the table. Some common run has this length and none is
   * longer.
   */
  function LcsLength(a: string, b: string): (r: nat)
    ensures exists i: nat, j: nat :: CommonAt(a, b, i, j, r)
    ensures forall i: nat, j: nat, k: nat :: CommonAt(a, b, i, j, k) ==> k <= r
  {
    TableMaxIsLongestCommonRun(a, b);
    RowsMax(a, b, |a|)
  }

  /** Extending a row by one column takes the larger of the old maximum and the new cell. */
  lemma RowMaxStep(a: string, b: string, i: nat, j: nat)
    requires i <= |a| && j < |b|
    ensures RowMax(a, b, i, j + 1) == Max(RowMax(a, b, i, j), SuffixRun(a, b, i, j + 1))
  {
  }

  /** Adding a row takes the larger of the old maximum and the new row's maximum. */
  lemma RowsMaxStep(a: string, b: string, n: nat)
    requires n < |a|
    ensures RowsMax(a, b, n + 1) == Max(RowsMax(a, b, n), RowMax(a, b, n + 1, |b|))
  {
  }

  /** Row `i` of the table holds its longest common suffixes in columns `0 .. upto - 1`. */
  ghost predicate RowFilled(s1: string, s2: string, m: array2<nat>, i: nat, upto: nat)
    reads m
    requires m.Length0 == |s1| && m.Length1 == |s2| && i < |s1| && upto <= |s2|
  {
    forall j: nat :: j < upto ==> m[i, j] == SuffixRun(s1, s2, i + 1, j + 1)
  }

  /** Row `i` of the table is still zero from column `from` on. */
  ghost predicate RowZero(m: array2<nat>, i: nat, from: nat)
    reads m
    requires i < m.Length0
  {
    forall j: nat :: from <= j < m.Length1 ==> m[i, j] == 0
  }

  /**
   * `find_longest_common_substring_length`: fills the table `m` row by row,
   * `m[i, j]` being the longest common suffix of `s1[..i + 1]` and
   * `s2[..j + 1]`, and keeps the largest cell seen.
   */
  method LongestCommonSubstringLength(s1: string, s2: string) returns (longest: nat)
    ensures longest == LcsLength(s1, s2)
  {
    if |s1| == 0 || |s2| == 0 {
      return 0;
    }
    var m := new nat[|s1|, |s2|]((_, _) => 0);
    longest := 0;
    for i := 0 to |s1|
      invariant longest == RowsMax(s1, s2, i)
      invariant i > 0 ==> RowFilled(s1, s2, m, i - 1, |s2|)
      invariant forall i': nat :: i <= i' < |s1| ==> RowZero(m, i', 0)
    {
      longest := FillRow(s1, s2, m, i, longest);
      RowsMaxStep(s1, s2, i);
    }
    TableMaxIsLongestCommonRun(s1, s2);
  }

  /** One pass of the outer loop: fills row `i` from row `i - 1`. */
  method FillRow(s1: string, s2: string, m: array2<nat>, i: nat, longest0: nat) returns (longest: nat)
    requires m.Length0 == |s1| && m.Length1 == |s2| && i < |s1|
    requires i > 0 ==> RowFilled(s1, s2, m, i - 1, |s2|)
    requires forall i': nat :: i <= i' < |s1| ==> RowZero(m, i', 0)
    modifies m
    ensures RowFilled(s1, s2, m, i, |s2|)
    ensures forall i': nat :: i < i' < |s1| ==> RowZero(m, i', 0)
    ensures forall i': nat, j: nat :: i' < |s1| && i' != i && j < |s2| ==> m[i', j] == old(m[i', j])
    ensures longest == Max(longest0, RowMax(s1, s2, i + 1, |s2|))
  {
    longest := longest0;
    for j := 0 to |s2|
      invariant longest == Max(longest0, RowMax(s1, s2, i + 1, j))
      invariant RowFilled(s1, s2, m, i, j)
      invariant RowZero(m, i, j)
      invariant forall i': nat, j': nat :: i' < |s1| && i' != i && j' < |s2| ==> m[i', j'] == old(m[i', j'])
    {
      RowMaxStep(s1, s2, i + 1, j);
      if s1[i] == s2[j] {
        m[i, j] := 1;
        if i > 0 && j > 0 {
          m[i, j] := m[i, j] + m[i - 1, j - 1];
        }
        if m[i, j] > longest {
          longest := m[i, j];
        }
      }
    }
    forall i': nat | i < i' < |s1| ensures RowZero(m, i', 0) {
      assert old(RowZero(m, i', 0));
    }
  }

  /** Common runs are the same seen from either string. */
  lemma LcsSymmetric(a: string, b: string)
    ensures LcsLength(a, b) == LcsLength(b, a)
  {
    var i, j :| CommonAt(a, b, i, j, LcsLength(a, b));
    assert CommonAt(b, a, j, i, LcsLength(a, b));
    var i', j' :| CommonAt(b, a, i', j', LcsLength(b, a));
    assert CommonAt(a, b, j', i', LcsLength(b, a));
  }

  /** No common run is longer than either string. */
  lemma LcsBounded(a: string, b: string)
    ensures LcsLength(a, b) <= |a| && LcsLength(a, b) <= |b|
    ensures a == [] || b == [] ==> LcsLength(a, b) == 0
  {
    var i, j :| CommonAt(a, b, i, j, LcsLength(a, b));
  }

  /** When `a` occurs in `b` the longest common run is all of `a`. */
  lemma LcsOfContained(a: string, b: string, j: nat)
    requires j + |a| <= |b| && b[j..j + |a|] == a
    ensures LcsLength(a, b) == |a|
  {
    assert a[0..|a|] == a;
    assert CommonAt(a, b, 0, j, |a|);
    LcsBounded(a, b);
  }

  lemma LcsSelf(s: string)
    ensures LcsLength(s, s) == |s|
  {
    LcsOfContained(s, s, 0);
  }

  lemma FractionAtMostOne(l: nat, n: nat)
    requires 0 < n && l <= n
    ensures 0.0 <= l as real / n as real <= 1.0
    ensures l as real / n as real == 1.0 <==> l == n
    ensures l as real / n as real > 0.0 <==> l > 0
  {
  }

  lemma ProductAtMostOne(x: real, y: real)
    requires 0.0 <= x <= 1.0 && 0.0 <= y <= 1.0
    ensures 0.0 <= x * y <= x && x * y <= y
    ensures x * y == 1.0 <==> x == 1.0 && y == 1.0
    ensures x * y > 0.0 <==> x > 0.0 && y > 0.0
  {
  }

  /** `(l / n1) * (l / n2)`: a product of two fractions, 1 only when `l` is both lengths. */
  function Ratio(l: nat, n1: nat, n2: nat): (r: real)
    requires 0 < n1 && 0 < n2 && l <= n1 && l <= n2
    ensures 0.0 <= r <= 1.0
    ensures r == 1.0 <==> l == n1 && l == n2
    ensures r > 0.0 <==> l > 0
  {
    var x, y := l as real / n1 as real, l as real / n2 as real;
    FractionAtMostOne(l, n1);
    FractionAtMostOne(l, n2);
    ProductAtMostOne(x, y);
    x * y
  }

  lemma RatioSymmetric(l: nat, n1: nat, n2: nat)
    requires 0 < n1 && 0 < n2 && l <= n1 && l <= n2
    ensures Ratio(l, n1, n2) == Ratio(l, n2, n1)
  {
  }

  /**
   * `similarity_ratio`: `(L / |s1|) * (L / |s2|)` for the longest common
   * substring length `L`, and 0 when either string is empty. It is 1
   * exactly when both strings are all of their common run, and positive
   * exactly when they share a byte.
   */
  function SimilarityRatio(s1: string, s2: string): (r: real)
    ensures 0.0 <= r <= 1.0
    ensures s1 == [] || s2 == [] ==> r == 0.0
    ensures r == 1.0 <==> s1 != [] && s2 != [] && LcsLength(s1, s2) == |s1| == |s2|
    ensures r > 0.0 <==> LcsLength(s1, s2) > 0
  {
    LcsBounded(s1, s2);
    if s1 == [] || s2 == [] then 0.0 else Ratio(LcsLength(s1, s2), |s1|, |s2|)
  }

  lemma SimilarityRatioSymmetric(a: string, b: string)
    ensures SimilarityRatio(a, b) == SimilarityRatio(b, a)
  {
    LcsSymmetric(a, b);
    LcsBounded(a, b);
    if a != [] && b != [] {
      RatioSymmetric(LcsLength(a, b), |a|, |b|);
    }
  }

  /** The ratio is 1 exactly for two equal non-empty strings. */
  lemma SimilarityRatioIsOneIff(a: string, b: string)
    ensures SimilarityRatio(a, b) == 1.0 <==> a == b && a != []
  {
    if a == b && a != [] {
      LcsSelf(a);
    }
    if SimilarityRatio(a, b) == 1.0 {
      var i, j :| CommonAt(a, b, i, j, LcsLength(a, b));
      assert i == 0 && j == 0;
      assert a == a[0..|a|] == b[0..|b|] == b;
    }
  }

  /** One shared byte makes the ratio of two strings positive. */
  lemma SharedByteGivesPositiveRatio(a: string, b: string, i: nat, j: nat)
    requires i < |a| && j < |b| && a[i] == b[j]
    ensures SimilarityRatio(a, b) > 0.0
  {
    assert CommonAt(a, b, i, j, 1);
  }

  /** When `b` occurs in `a` the ratio is `|b| / |a|`: only the proportion of `a` the match covers counts. */
  lemma RatioOfContained(a: string, b: string, j: nat)
    requires b != [] && j + |b| <= |a| && a[j..j + |b|] == b
    ensures SimilarityRatio(a, b) == |b| as real / |a| as real
  {
    LcsOfContained(b, a, j);
    LcsSymmetric(a, b);
    LcsBounded(a, b);
    assert SimilarityRatio(a, b) == Ratio(|b|, |a|, |b|);
    WholeFraction(|a|, |b|);
  }

  lemma WholeFraction(n: nat, l: nat)
    requires 0 < l <= n
    ensures Ratio(l, n, l) == l as real / n as real
  {
    assert l as real / l as real == 1.0;
  }

  /** Without a common pair of adjacent bytes no common run is longer than one byte. */
  lemma LcsAtMostOneWithoutCommonPair(a: string, b: string)
    requires forall i, j :: 0 <= i < |a| - 1 && 0 <= j < |b| - 1 ==> a[i] != b[j] || a[i + 1] != b[j + 1]
    ensures LcsLength(a, b) <= 1
  {
    var l := LcsLength(a, b);
    var i: nat, j: nat :| CommonAt(a, b, i, j, l);
    CommonRunOpensWithPair(a, b, i, j, l);
  }

  /** A common run of two or more bytes starts with a common pair. */
  lemma CommonRunOpensWithPair(a: string, b: string, i: nat, j: nat, l: nat)
    requires CommonAt(a, b, i, j, l)
    ensures l >= 2 ==> i + 1 < |a| && j + 1 < |b| && a[i] == b[j] && a[i + 1] == b[j + 1]
  {
    if l >= 2 {
      assert a[i] == a[i..i + l][0] && b[j] == b[j..j + l][0];
      assert a[i + 1] == a[i..i + l][1] && b[j + 1] == b[j..j + l][1];
    }
  }

  /** For fixed lengths a longer common run gives a strictly larger ratio. */
  lemma RatioMonotone(l1: nat, l2: nat, n1: nat, n2: nat)
    requires 0 < n1 && 0 < n2 && l1 < l2 <= n1 && l2 <= n2
    ensures Ratio(l1, n1, n2) < Ratio(l2, n1, n2)
  {
    var x1, x2, y1, y2 := l1 as real / n1 as real, l2 as real / n1 as real, l1 as real / n2 as real, l2 as real / n2 as real;
    FractionGrows(l1, l2, n1);
    FractionGrows(l1, l2, n2);
    ProductGrows(x1, x2, y1, y2);
    assert Ratio(l1, n1, n2) == x1 * y1 && Ratio(l2, n1, n2) == x2 * y2;
  }

  lemma FractionGrows(a: nat, b: nat, n: nat)
    requires 0 < n && a < b
    ensures 0.0 <= a as real / n as real < b as real / n as real
  {
  }

  lemma ProductGrows(x1: real, x2: real, y1: real, y2: real)
    requires 0.0 <= x1 < x2 && 0.0 <= y1 < y2
    ensures x1 * y1 < x2 * y2
  {
    assert x1 * y1 <= x1 * y2;
    assert x1 * y2 < x2 * y2;
  }

  /**
   * The parent half of `score`: the ratio of two parents, 1 when neither
   * path has one, 0 when only one has.
   */
  function ParentScore(parent1: Option<string>, parent2: Option<string>): (r: real)
    ensures 0.0 <= r <= 1.0
    ensures parent1.Some? && parent2.Some? ==> r == SimilarityRatio(parent1.value, parent2.value)
    ensures parent1.None? && parent2.None? ==> r == 1.0
    ensures parent1.Some? != parent2.Some? ==> r == 0.0
  {
    match (parent1, parent2)
    case (Some(p1), Some(p2)) => SimilarityRatio(p1, p2)
    case (None, None) => 1.0
    case _ => 0.0
  }

  /** `filenameWeight * filenameScore + pathWeight * pathScore`. */
  function WeightedSum(filenameWeight: real, filenameScore: real, pathWeight: real, pathScore: real): (r: real)
    ensures filenameWeight >= 0.0 && pathWeight >= 0.0 && 0.0 <= filenameScore <= 1.0 && 0.0 <= pathScore <= 1.0
      ==> 0.0 <= r <= filenameWeight + pathWeight
    ensures filenameScore == 1.0 && pathScore == 1.0 ==> r == filenameWeight + pathWeight
    ensures filenameScore == 0.0 && pathScore == 0.0 ==> r == 0.0
  {
    ScaledSum(filenameWeight, filenameScore, pathWeight, pathScore);
    filenameWeight * filenameScore + pathWeight * pathScore
  }

  lemma ScaledSum(w1: real, x1: real, w2: real, x2: real)
    ensures w1 >= 0.0 && w2 >= 0.0 && 0.0 <= x1 <= 1.0 && 0.0 <= x2 <= 1.0 ==> 0.0 <= w1 * x1 + w2 * x2 <= w1 + w2
    ensures x1 == 1.0 && x2 == 1.0 ==> w1 * x1 + w2 * x2 == w1 + w2
    ensures x1 == 0.0 && x2 == 0.0 ==> w1 * x1 + w2 * x2 == 0.0
  {
    Scaled(w1, x1);
    Scaled(w2, x2);
    var a, b := w1 * x1, w2 * x2;
    if w1 >= 0.0 && w2 >= 0.0 && 0.0 <= x1 <= 1.0 && 0.0 <= x2 <= 1.0 {
      assert 0.0 <= a <= w1 && 0.0 <= b <= w2;
      assert 0.0 <= a + b <= w1 + w2;
    }
  }

  lemma Scaled(w: real, x: real)
    ensures w >= 0.0 && 0.0 <= x <= 1.0 ==> 0.0 <= w * x <= w
    ensures x == 1.0 ==> w * x == w
    ensures x == 0.0 ==> w * x == 0.0
  {
    if w >= 0.0 && 0.0 <= x <= 1.0 {
      assert w * x <= w * 1.0;
    }
  }

  /**
   * `score`: the stem ratio times `filenameWeight` plus the parent score
   * times `pathWeight`; exactly 0 when either path has no file stem.
   */
  function Score(s1: string, s2: string, filenameWeight: real, pathWeight: real): (r: real)
    ensures FileStem(s1).None? || FileStem(s2).None? ==> r == 0.0
  {
    match (FileStem(s1), FileStem(s2))
    case (Some(name1), Some(name2)) =>
      WeightedSum(filenameWeight, SimilarityRatio(name1, name2), pathWeight, ParentScore(Parent(s1), Parent(s2)))
    case _ => 0.0
  }

  /** With non-negative weights the weighted sum is positive once a part with a positive weight is. */
  lemma WeightedSumPositive(fw: real, fs: real, pw: real, ps: real)
    requires fw >= 0.0 && pw >= 0.0 && 0.0 <= fs <= 1.0 && 0.0 <= ps <= 1.0
    requires (fw > 0.0 && fs > 0.0) || (pw > 0.0 && ps > 0.0)
    ensures WeightedSum(fw, fs, pw, ps) > 0.0
  {
    Scaled(fw, fs);
    Scaled(pw, ps);
    if fw > 0.0 && fs > 0.0 {
      assert fw * fs > 0.0;
    } else {
      assert pw * ps > 0.0;
    }
  }

  /**
   * Two paths with stems always have parents, so the score is the weighted
   * sum of the stem ratio and the parent ratio.
   */
  lemma ScoreOfNamedPaths(s1: string, s2: string, fw: real, pw: real)
    requires FileStem(s1).Some? && FileStem(s2).Some?
    ensures Parent(s1).Some? && Parent(s2).Some?
    ensures Score(s1, s2, fw, pw)
         == WeightedSum(fw, SimilarityRatio(FileStem(s1).value, FileStem(s2).value),
                        pw, SimilarityRatio(Parent(s1).value, Parent(s2).value))
  {
    StemImpliesParent(s1);
    StemImpliesParent(s2);
  }

  /**
   * For `dir/base.ext` paths with non-empty directories the score weighs
   * the ratio of the bases and the ratio of the directories.
   */
  lemma ScoreOfFilePaths(d1: string, n1: string, d2: string, n2: string, ext: string, fw: real, pw: real)
    requires d1 != "" && d2 != "" && n1 != "" && n2 != "" && ext != ""
    requires '/' !in n1 && '/' !in n2 && '/' !in ext && '.' !in ext
    ensures Score(d1 + "/" + n1 + "." + ext, d2 + "/" + n2 + "." + ext, fw, pw)
         == WeightedSum(fw, SimilarityRatio(n1, n2), pw, SimilarityRatio(d1, d2))
  {
    FilePathParts(d1, n1, ext);
    FilePathParts(d2, n2, ext);
  }

  lemma FilePathParts(d: string, n: string, ext: string)
    requires d != "" && n != "" && ext != "" && '/' !in n && '/' !in ext && '.' !in ext
    ensures FileStem(d + "/" + n + "." + ext) == Some(n) && Parent(d + "/" + n + "." + ext) == Some(d)
  {
    var name := n + "." + ext;
    assert '/' !in name by {
      forall k | 0 <= k < |name| ensures name[k] != '/' {
        if k < |n| { assert name[k] == n[k]; }
        else if k > |n| { assert name[k] == ext[k - |n| - 1]; }
      }
    }
    assert |name| >= 3;
    assert d + "/" + n + "." + ext == d + "/" + name;
    SplitAtLastSlash(d, name);
    StemAtLastDot(n, ext);
  }

  lemma ScoreSymmetric(s1: string, s2: string, fw: real, pw: real)
    ensures Score(s1, s2, fw, pw) == Score(s2, s1, fw, pw)
  {
    if FileStem(s1).Some? && FileStem(s2).Some? {
      ScoreOfNamedPaths(s1, s2, fw, pw);
      ScoreOfNamedPaths(s2, s1, fw, pw);
      SimilarityRatioSymmetric(FileStem(s1).value, FileStem(s2).value);
      SimilarityRatioSymmetric(Parent(s1).value, Parent(s2).value);
    }
  }

  /** With non-negative weights the score lies between 0 and the sum of the weights. */
  lemma ScoreBounds(s1: string, s2: string, fw: real, pw: real)
    requires fw >= 0.0 && pw >= 0.0
    ensures 0.0 <= Score(s1, s2, fw, pw) <= fw + pw
  {
  }

  /** A path with a stem and a non-empty parent scores the maximum against itself. */
  lemma ScoreOfSamePath(p: string, fw: real, pw: real)
    requires FileStem(p).Some? && Parent(p).Some? && Parent(p).value != ""
    ensures Score(p, p, fw, pw) == fw + pw
  {
    ScoreOfNamedPaths(p, p, fw, pw);
    SimilarityRatioIsOneIff(FileStem(p).value, FileStem(p).value);
    SimilarityRatioIsOneIff(Parent(p).value, Parent(p).value);
  }

  /** Strings sharing no byte have no common run, so their ratio is 0. */
  lemma NoSharedByteGivesZeroRatio(a: string, b: string)
    requires forall i, j :: 0 <= i < |a| && 0 <= j < |b| ==> a[i] != b[j]
    ensures LcsLength(a, b) == 0 && SimilarityRatio(a, b) == 0.0
  {
    var l := LcsLength(a, b);
    var i: nat, j: nat :| CommonAt(a, b, i, j, l);
  }

  /** The stem of a bare name is a prefix of it, and its parent is the empty path. */
  lemma BareNameStem(s: string)
    requires '/' !in s && FileStem(s).Some?
    ensures StartsWith(s, FileStem(s).value) && Parent(s) == Some("")
  {
    assert LastComponent(s) == s;
  }

  /**
   * Two bare names (no `/`) sharing no byte score 0: the stems share
   * nothing and both parents are the empty path, whose ratio is 0.
   */
  lemma BareNamesWithoutSharedBytes(s1: string, s2: string, fw: real, pw: real)
    requires '/' !in s1 && '/' !in s2
    requires forall i, j :: 0 <= i < |s1| && 0 <= j < |s2| ==> s1[i] != s2[j]
    ensures Score(s1, s2, fw, pw) == 0.0
  {
    if FileStem(s1).Some? && FileStem(s2).Some? {
      var n1, n2 := FileStem(s1).value, FileStem(s2).value;
      BareNameStem(s1);
      BareNameStem(s2);
      forall i, j | 0 <= i < |n1| && 0 <= j < |n2| ensures n1[i] != n2[j] {
        assert n1[i] == s1[..|n1|][i] == s1[i];
        assert n2[j] == s2[..|n2|][j] == s2[j];
      }
      NoSharedByteGivesZeroRatio(n1, n2);
      ScoreOfNamedPaths(s1, s2, fw, pw);
      assert SimilarityRatio(Parent(s1).value, Parent(s2).value) == 0.0;
    }
  }

  /**
   * `score_paths`: cleanse every candidate, drop those equal to the
   * (already cleansed) target, and pair each survivor with its score
   * against the target, in input order.
   */
  function ScorePaths(paths: seq<string>, cleansedPath: string, filenameWeight: real, pathWeight: real)
    : (r: seq<ScoredPath>)
    ensures |r| <= |paths|
  {
    if paths == [] then []
    else
      var path := CleansePath(paths[0]);
      var rest := ScorePaths(paths[1..], cleansedPath, filenameWeight, pathWeight);
      if path != cleansedPath
      then [ScoredPath(Score(cleansedPath, path, filenameWeight, pathWeight), path)] + rest
      else rest
  }

  /** The positions, from `from` on, of the candidates that survive the filter. */
  function KeptFrom(paths: seq<string>, cleansedPath: string, from: nat): (idx: seq<nat>)
    requires from <= |paths|
    ensures forall k :: 0 <= k < |idx| ==> from <= idx[k] < |paths|
    ensures forall k, l :: 0 <= k < l < |idx| ==> idx[k] < idx[l]
    ensures forall i :: from <= i < |paths| ==> (i in idx <==> CleansePath(paths[i]) != cleansedPath)
    decreases |paths| - from
  {
    if from == |paths| then []
    else
      var rest := KeptFrom(paths, cleansedPath, from + 1);
      if CleansePath(paths[from]) != cleansedPath then [from] + rest else rest
  }

  /** When every candidate from `from` on survives, the positions are `from`, `from + 1`, and so on. */
  lemma {:induction false} KeptFromAll(paths: seq<string>, cleansedPath: string, from: nat)
    requires from <= |paths|
    requires forall i :: from <= i < |paths| ==> CleansePath(paths[i]) != cleansedPath
    ensures |KeptFrom(paths, cleansedPath, from)| == |paths| - from
    ensures forall k :: 0 <= k < |paths| - from ==> KeptFrom(paths, cleansedPath, from)[k] == from + k
    decreases |paths| - from
  {
    if from < |paths| {
      KeptFromAll(paths, cleansedPath, from + 1);
      var later := KeptFrom(paths, cleansedPath, from + 1);
      assert KeptFrom(paths, cleansedPath, from) == [from] + later;
    }
  }

  /** The positions of all surviving candidates, in increasing order. */
  function KeptIndices(paths: seq<string>, cleansedPath: string): (idx: seq<nat>)
    ensures forall k :: 0 <= k < |idx| ==> idx[k] < |paths|
    ensures forall k, l :: 0 <= k < l < |idx| ==> idx[k] < idx[l]
    ensures forall i :: 0 <= i < |paths| ==> (i in idx <==> CleansePath(paths[i]) != cleansedPath)
  {
    KeptFrom(paths, cleansedPath, 0)
  }

  /** The entry `score_paths` makes of a surviving candidate: its cleansed path and that path's score. */
  function Entry(p: string, t: string, fw: real, pw: real): ScoredPath {
    ScoredPath(Score(t, CleansePath(p), fw, pw), CleansePath(p))
  }

  /** The entry of every candidate, survivor or not, by position. */
  function Entries(paths: seq<string>, t: string, fw: real, pw: real): (es: seq<ScoredPath>)
    ensures |es| == |paths|
  {
    seq(|paths|, i requires 0 <= i < |paths| => Entry(paths[i], t, fw, pw))
  }

  /** `r` lists, position by position, the entries of `es` at the positions `idx`. */
  predicate Picks(r: seq<ScoredPath>, idx: seq<nat>, es: seq<ScoredPath>) {
    |r| == |idx| && forall k :: 0 <= k < |idx| ==> idx[k] < |es| && r[k] == es[idx[k]]
  }

  /** Picking one more entry in front keeps the picking. */
  lemma PicksCons(r: seq<ScoredPath>, idx: seq<nat>, es: seq<ScoredPath>, i: nat)
    requires Picks(r, idx, es) && i < |es|
    ensures Picks([es[i]] + r, [i] + idx, es)
  {
    var r', idx' := [es[i]] + r, [i] + idx;
    forall k | 0 < k < |idx'| ensures idx'[k] < |es| && r'[k] == es[idx'[k]] {
      assert r'[k] == r[k - 1] && idx'[k] == idx[k - 1];
    }
  }

  lemma {:induction false} ScorePathsFrom(paths: seq<string>, t: string, fw: real, pw: real, from: nat)
    requires from <= |paths|
    ensures Picks(ScorePaths(paths[from..], t, fw, pw), KeptFrom(paths, t, from), Entries(paths, t, fw, pw))
    decreases |paths| - from
  {
    var es := Entries(paths, t, fw, pw);
    if from < |paths| {
      var suffix := paths[from..];
      assert suffix[0] == paths[from];
      assert suffix[1..] == paths[from + 1..];
      ScorePathsFrom(paths, t, fw, pw, from + 1);
      var rest, later := ScorePaths(paths[from + 1..], t, fw, pw), KeptFrom(paths, t, from + 1);
      if CleansePath(paths[from]) != t {
        PicksCons(rest, later, es, from);
        assert es[from] == Entry(paths[from], t, fw, pw);
        assert ScorePaths(suffix, t, fw, pw) == [es[from]] + rest;
        assert KeptFrom(paths, t, from) == [from] + later;
      } else {
        assert ScorePaths(suffix, t, fw, pw) == rest;
        assert KeptFrom(paths, t, from) == later;
      }
    } else {
      assert paths[from..] == [];
    }
  }

  /**
   * `score_paths` keeps exactly the candidates whose cleansed form differs
   * from the target, in their input order, each paired with its score.
   */
  lemma ScorePathsKeepsOrder(paths: seq<string>, t: string, fw: real, pw: real)
    ensures Picks(ScorePaths(paths, t, fw, pw), KeptIndices(paths, t), Entries(paths, t, fw, pw))
  {
    assert paths[0..] == paths;
    ScorePathsFrom(paths, t, fw, pw, 0);
  }

  /** One position of `score_paths`: the entry of the candidate the position picks. */
  lemma ScorePathsAt(paths: seq<string>, t: string, fw: real, pw: real, k: nat)
    requires k < |ScorePaths(paths, t, fw, pw)|
    ensures |ScorePaths(paths, t, fw, pw)| == |KeptIndices(paths, t)| && KeptIndices(paths, t)[k] < |paths|
    ensures CleansePath(paths[KeptIndices(paths, t)[k]]) != t
    ensures ScorePaths(paths, t, fw, pw)[k] == Entry(paths[KeptIndices(paths, t)[k]], t, fw, pw)
  {
    ScorePathsKeepsOrder(paths, t, fw, pw);
    var idx := KeptIndices(paths, t);
    assert idx[k] in idx;
  }

  /** Every entry of `score_paths` is a cleansed candidate other than the target, paired with its score. */
  lemma ScorePathsEntries(paths: seq<string>, t: string, fw: real, pw: real)
    ensures forall k :: 0 <= k < |ScorePaths(paths, t, fw, pw)| ==>
      ScorePaths(paths, t, fw, pw)[k].path != t && ScorePaths(paths, t, fw, pw)[k].score == Score(t, ScorePaths(paths, t, fw, pw)[k].path, fw, pw)
  {
    var r, idx := ScorePaths(paths, t, fw, pw), KeptIndices(paths, t);
    ScorePathsKeepsOrder(paths, t, fw, pw);
    forall k | 0 <= k < |r| ensures r[k].path != t && r[k].score == Score(t, r[k].path, fw, pw) {
      ScorePathsAt(paths, t, fw, pw, k);
      assert idx[k] in idx;
    }
  }

  /** A string is among the scored paths exactly when it is a cleansed candidate other than the target. */
  lemma ScorePathsMembers(paths: seq<string>, t: string, fw: real, pw: real, x: string)
    ensures (exists k :: 0 <= k < |ScorePaths(paths, t, fw, pw)| && ScorePaths(paths, t, fw, pw)[k].path == x)
        ==> x != t && exists i :: 0 <= i < |paths| && CleansePath(paths[i]) == x
    ensures (x != t && exists i :: 0 <= i < |paths| && CleansePath(paths[i]) == x)
        ==> exists k :: 0 <= k < |ScorePaths(paths, t, fw, pw)| && ScorePaths(paths, t, fw, pw)[k].path == x
  {
    var r, idx := ScorePaths(paths, t, fw, pw), KeptIndices(paths, t);
    ScorePathsKeepsOrder(paths, t, fw, pw);
    if exists i :: 0 <= i < |paths| && CleansePath(paths[i]) == x && x != t {
      var i :| 0 <= i < |paths| && CleansePath(paths[i]) == x && x != t;
      assert i in idx;
      var k :| 0 <= k < |idx| && idx[k] == i;
      ScorePathsAt(paths, t, fw, pw, k);
      assert r[k].path == x;
    }
    if exists k :: 0 <= k < |r| && r[k].path == x {
      var k :| 0 <= k < |r| && r[k].path == x;
      ScorePathsAt(paths, t, fw, pw, k);
      var i := idx[k];
      assert i in idx && CleansePath(paths[i]) == x;
    }
  }

  /** What the first candidate contributes: its scored entry, or nothing when it cleanses to the target. */
  function HeadEntry(p: string, t: string, fw: real, pw: real): seq<ScoredPath> {
    if CleansePath(p) != t then [Entry(p, t, fw, pw)] else []
  }

  /** `score_paths` of a non-empty list: the first candidate's entry, then the rest. */
  lemma ScorePathsHead(paths: seq<string>, t: string, fw: real, pw: real)
    requires paths != []
    ensures ScorePaths(paths, t, fw, pw) == HeadEntry(paths[0], t, fw, pw) + ScorePaths(paths[1..], t, fw, pw)
  {
    if CleansePath(paths[0]) == t {
      assert [] + ScorePaths(paths[1..], t, fw, pw) == ScorePaths(paths[1..], t, fw, pw);
    }
  }

  /** Scoring a concatenation scores each part: the basis of the chunked variant. */
  lemma {:induction false} ScorePathsConcat(a: seq<string>, b: seq<string>, t: string, fw: real, pw: real)
    ensures ScorePaths(a + b, t, fw, pw) == ScorePaths(a, t, fw, pw) + ScorePaths(b, t, fw, pw)
  {
    if a != [] {
      var ab := a + b;
      assert ab[0] == a[0] && ab[1..] == a[1..] + b;
      ScorePathsConcat(a[1..], b, t, fw, pw);
      ScorePathsHead(a, t, fw, pw);
      ScorePathsHead(ab, t, fw, pw);
      var h, ra, rb := HeadEntry(a[0], t, fw, pw), ScorePaths(a[1..], t, fw, pw), ScorePaths(b, t, fw, pw);
      assert h + (ra + rb) == (h + ra) + rb;
    } else {
      assert a + b == b;
    }
  }

  /**
   * `score_paths` with `cleanse_path` as written: the first candidate whose
   * cleansing panics makes the whole call panic.
   */
  function ScorePathsAsWritten(paths: seq<string>, cleansedPath: string, filenameWeight: real, pathWeight: real)
    : Outcome<seq<ScoredPath>>
  {
    if paths == [] then Returned([])
    else if CleansePathAsWritten(paths[0]).Panicked? then Panicked
    else
      var rest := ScorePathsAsWritten(paths[1..], cleansedPath, filenameWeight, pathWeight);
      if rest.Panicked? then Panicked
      else Returned(HeadEntry(paths[0], cleansedPath, filenameWeight, pathWeight) + rest.value)
  }

  /**
   * As written, `score_paths` panics when any candidate's first character is
   * cut at byte 2, and otherwise returns what `ScorePaths` does.
   */
  lemma {:induction false} ScorePathsAsWrittenPanics(paths: seq<string>, t: string, fw: real, pw: real)
    ensures (forall i :: 0 <= i < |paths| ==> !SplitsFirstCharacters(paths[i])) ==>
      ScorePathsAsWritten(paths, t, fw, pw) == Returned(ScorePaths(paths, t, fw, pw))
    ensures (exists i :: 0 <= i < |paths| && SplitsFirstCharacters(paths[i])) ==>
      ScorePathsAsWritten(paths, t, fw, pw) == Panicked
  {
    if paths != [] {
      CleansePathAsWrittenPanics(paths[0]);
      ScorePathsAsWrittenPanics(paths[1..], t, fw, pw);
      if forall i :: 0 <= i < |paths| ==> !SplitsFirstCharacters(paths[i]) {
        assert forall i :: 0 <= i < |paths| - 1 ==> !SplitsFirstCharacters(paths[1..][i]) by {
          forall i | 0 <= i < |paths| - 1 ensures !SplitsFirstCharacters(paths[1..][i]) {
            assert paths[1..][i] == paths[i + 1];
          }
        }
        ScorePathsHead(paths, t, fw, pw);
      }
      if exists i :: 0 <= i < |paths| && SplitsFirstCharacters(paths[i]) {
        var i :| 0 <= i < |paths| && SplitsFirstCharacters(paths[i]);
        if i > 0 {
          assert paths[1..][i - 1] == paths[i];
        }
      }
    }
  }
}
