/**
 * The scorer's unit tests (src/alt/path/scoring/mod.rs) as lemmas. Each
 * fixture takes its strings as parameters fixed by `requires`, and the
 * arguments are reduced to the general lemmas of `Scoring`.
 */
module ScoringExamples {
  import opened Wrappers
  import opened Strings
  import opened PathUtils
  import opened PathNames
  import opened Scoring

  /** Two `dir/base.ext` paths with the same base score the full file weight plus the directory ratio. */
  lemma SameBaseScore(p: string, q: string, d1: string, d2: string, n: string, e: string)
    requires d1 != "" && d2 != "" && n != "" && e != "" && '/' !in n && '/' !in e && '.' !in e
    requires p == d1 + "/" + n + "." + e && q == d2 + "/" + n + "." + e
    ensures Score(p, q, 10.0, 1.0) == 10.0 + SimilarityRatio(d1, d2)
  {
    ScoreOfFilePaths(d1, n, d2, n, e, 10.0, 1.0);
    SimilarityRatioIsOneIff(n, n);
  }

  /** Two `dir/base.ext` paths in the same directory whose bases share no byte score the directory weight. */
  lemma SameDirScore(p: string, q: string, d: string, n1: string, n2: string, e: string)
    requires d != "" && n1 != "" && n2 != "" && e != "" && '/' !in n1 && '/' !in n2 && '/' !in e && '.' !in e
    requires forall i, j :: 0 <= i < |n1| && 0 <= j < |n2| ==> n1[i] != n2[j]
    requires p == d + "/" + n1 + "." + e && q == d + "/" + n2 + "." + e
    ensures Score(p, q, 10.0, 1.0) == 1.0
  {
    ScoreOfFilePaths(d, n1, d, n2, e, 10.0, 1.0);
    NoSharedByteGivesZeroRatio(n1, n2);
    SimilarityRatioIsOneIff(d, d);
  }

  lemma FooBarCar(p: string)
    requires p == "foo/bar/car.ts"
    ensures Score(p, "aaa/ddd/car.ts", 10.0, 1.0) == 10.0 + SimilarityRatio("foo/bar", "aaa/ddd")
  {
    var d1, d2, n, e := "foo/bar", "aaa/ddd", "car", "ts";
    assert p == d1 + "/" + n + "." + e;
    assert "aaa/ddd/car.ts" == d2 + "/" + n + "." + e;
    SameBaseScore(p, "aaa/ddd/car.ts", d1, d2, n, e);
  }

  lemma PppDddCar(p: string)
    requires p == "ppp/ddd/car.ts"
    ensures Score(p, "aaa/ddd/car.ts", 10.0, 1.0) == 10.0 + SimilarityRatio("ppp/ddd", "aaa/ddd")
  {
    var d1, d2, n, e := "ppp/ddd", "aaa/ddd", "car", "ts";
    assert p == d1 + "/" + n + "." + e;
    assert "aaa/ddd/car.ts" == d2 + "/" + n + "." + e;
    SameBaseScore(p, "aaa/ddd/car.ts", d1, d2, n, e);
  }

  lemma AaaDddCar(p: string)
    requires p == "aaa/ddd/car.ts"
    ensures Score(p, p, 10.0, 1.0) == 11.0
  {
    var d, n, e := "aaa/ddd", "car", "ts";
    assert p == d + "/" + n + "." + e;
    SameBaseScore(p, p, d, d, n, e);
    SimilarityRatioIsOneIff(d, d);
  }

  lemma HooptyCar(p: string)
    requires p == "aaa/ddd/hoopty.ts"
    ensures Score(p, "aaa/ddd/car.ts", 10.0, 1.0) == 1.0
  {
    var d, n1, n2, e := "aaa/ddd", "hoopty", "car", "ts";
    assert p == d + "/" + n1 + "." + e;
    assert "aaa/ddd/car.ts" == d + "/" + n2 + "." + e;
    assert n2[0] == 'c' && n2[1] == 'a' && n2[2] == 'r';
    SameDirScore(p, "aaa/ddd/car.ts", d, n1, n2, e);
  }

  /** `foo/bar` and `aaa/ddd` share single bytes (`a`, `/`) but no pair of them. */
  lemma FooBarAgainstAaaDdd(a: string, b: string)
    requires a == "foo/bar" && b == "aaa/ddd"
    ensures LcsLength(a, b) <= 1
  {
    assert a[0] == 'f' && a[1] == 'o' && a[2] == 'o' && a[3] == '/' && a[4] == 'b' && a[5] == 'a' && a[6] == 'r';
    assert b[0] == 'a' && b[1] == 'a' && b[2] == 'a' && b[3] == '/' && b[4] == 'd' && b[5] == 'd' && b[6] == 'd';
    LcsAtMostOneWithoutCommonPair(a, b);
  }

  /** `ppp/ddd` and `aaa/ddd` share `/ddd`. */
  lemma PppDddAgainstAaaDdd(a: string, b: string)
    requires a == "ppp/ddd" && b == "aaa/ddd"
    ensures LcsLength(a, b) >= 4
  {
    assert a[3..7] == b[3..7];
    assert CommonAt(a, b, 3, 3, 4);
  }

  /** The ratio of two seven-byte strings grows with their common run. */
  lemma SevenByteRatios(a1: string, a2: string, b: string)
    requires |a1| == 7 && |a2| == 7 && |b| == 7 && LcsLength(a1, b) < LcsLength(a2, b)
    ensures SimilarityRatio(a1, b) < SimilarityRatio(a2, b)
  {
    LcsBounded(a1, b);
    LcsBounded(a2, b);
    RatioMonotone(LcsLength(a1, b), LcsLength(a2, b), 7, 7);
  }

  /** `score_paths_that_have_similar_files_over_similar_dirs`. */
  lemma SimilarFilesOverSimilarDirs(a: string, b: string, t: string)
    requires a == "foo/bar/car.ts" && b == "aaa/ddd/hoopty.ts" && t == "aaa/ddd/car.ts"
    ensures Score(a, t, 10.0, 1.0) > Score(b, t, 10.0, 1.0)
  {
    FooBarCar(a);
    HooptyCar(b);
  }

  /**
   * `score_paths_that_have_similar_dirs_over_ones_that_dont_when_files_match`
   * and `score_paths_based_on_similarity_with_filename_having_presedence`:
   * the identical path beats the one with a similar directory, which beats
   * the one with a dissimilar directory.
   */
  lemma SimilarDirsWhenFilesMatch(a: string, b: string, c: string)
    requires a == "foo/bar/car.ts" && b == "ppp/ddd/car.ts" && c == "aaa/ddd/car.ts"
    ensures Score(c, c, 10.0, 1.0) > Score(b, c, 10.0, 1.0) > Score(a, c, 10.0, 1.0)
  {
    FooBarCar(a);
    PppDddCar(b);
    AaaDddCar(c);
    var fooBar, pppDdd, aaaDdd := "foo/bar", "ppp/ddd", "aaa/ddd";
    FooBarAgainstAaaDdd(fooBar, aaaDdd);
    PppDddAgainstAaaDdd(pppDdd, aaaDdd);
    SevenByteRatios(fooBar, pppDdd, aaaDdd);
    assert pppDdd[0] != aaaDdd[0];
    SimilarityRatioIsOneIff(pppDdd, aaaDdd);
  }

  /** A shared byte in the directories of two `dir/base.ext` paths makes their score positive. */
  lemma SharedDirByteScoresPositive(p: string, q: string, d1: string, n1: string, d2: string, n2: string, e: string,
                                    i: nat, j: nat)
    requires d1 != "" && d2 != "" && n1 != "" && n2 != "" && e != ""
    requires '/' !in n1 && '/' !in n2 && '/' !in e && '.' !in e
    requires p == d1 + "/" + n1 + "." + e && q == d2 + "/" + n2 + "." + e
    requires i < |d1| && j < |d2| && d1[i] == d2[j]
    ensures Score(p, q, 10.0, 1.0) > 0.0
  {
    ScoreOfFilePaths(d1, n1, d2, n2, e, 10.0, 1.0);
    SharedByteGivesPositiveRatio(d1, d2, i, j);
    WeightedSumPositive(10.0, SimilarityRatio(n1, n2), 1.0, SimilarityRatio(d1, d2));
  }

  /** None of the three fixture paths starts with `./`, so cleansing keeps them. */
  lemma FixturePathsAreClean(paths: seq<string>)
    requires paths == ["foo/bar/car.ts", "hoopty/doopty/foopty.ts", "home/away/lets_play.ts"]
    ensures forall k :: 0 <= k < |paths| ==> CleansePath(paths[k]) == paths[k]
  {
    forall k | 0 <= k < |paths| ensures CleansePath(paths[k]) == paths[k] {
      assert paths[k][0] != '.';
      assert paths[k][..2][0] == paths[k][0];
      CleanseKeepsOtherPaths(paths[k]);
    }
  }

  /** Scoring a one-entry list: the entry scored, unless it is the target. */
  lemma ScorePathsOfOne(x: string, t: string, fw: real, pw: real)
    requires CleansePath(x) == x
    ensures ScorePaths([x], t, fw, pw) == if x != t then [ScoredPath(Score(t, x, fw, pw), x)] else []
  {
    assert [x][1..] == [];
  }

  /** Scoring a three-entry list entry by entry. */
  lemma ScorePathsOfThree(paths: seq<string>, t: string, fw: real, pw: real)
    requires |paths| == 3 && forall k :: 0 <= k < 3 ==> CleansePath(paths[k]) == paths[k]
    ensures ScorePaths(paths, t, fw, pw)
         == ScorePaths([paths[0]], t, fw, pw) + ScorePaths([paths[1]], t, fw, pw) + ScorePaths([paths[2]], t, fw, pw)
  {
    assert paths == [paths[0]] + [paths[1]] + [paths[2]];
    ScorePathsConcat([paths[0]] + [paths[1]], [paths[2]], t, fw, pw);
    ScorePathsConcat([paths[0]], [paths[1]], t, fw, pw);
  }

  /** Scoring three clean entries of which only the middle one is the target. */
  lemma ScoreThreeDroppingMiddle(paths: seq<string>, t: string, fw: real, pw: real)
    requires |paths| == 3 && forall k :: 0 <= k < 3 ==> CleansePath(paths[k]) == paths[k]
    requires paths[0] != t && paths[1] == t && paths[2] != t
    ensures ScorePaths(paths, t, fw, pw)
         == [ScoredPath(Score(t, paths[0], fw, pw), paths[0]), ScoredPath(Score(t, paths[2], fw, pw), paths[2])]
  {
    ScorePathsOfThree(paths, t, fw, pw);
    ScorePathsOfOne(paths[0], t, fw, pw);
    ScorePathsOfOne(paths[1], t, fw, pw);
    ScorePathsOfOne(paths[2], t, fw, pw);
  }

  /** Scoring three clean entries none of which is the target. */
  lemma ScoreThreeKeepingAll(paths: seq<string>, t: string, fw: real, pw: real)
    requires |paths| == 3 && forall k :: 0 <= k < 3 ==> CleansePath(paths[k]) == paths[k]
    requires paths[0] != t && paths[1] != t && paths[2] != t
    ensures ScorePaths(paths, t, fw, pw)
         == [ScoredPath(Score(t, paths[0], fw, pw), paths[0]), ScoredPath(Score(t, paths[1], fw, pw), paths[1]),
             ScoredPath(Score(t, paths[2], fw, pw), paths[2])]
  {
    ScorePathsOfThree(paths, t, fw, pw);
    ScorePathsOfOne(paths[0], t, fw, pw);
    ScorePathsOfOne(paths[1], t, fw, pw);
    ScorePathsOfOne(paths[2], t, fw, pw);
  }

  lemma FooBarAgainstHoopty(t: string, p: string)
    requires t == "hoopty/doopty/foopty.ts" && p == "foo/bar/car.ts"
    ensures Score(t, p, 10.0, 1.0) > 0.0
  {
    var d1, n1, d2, n2, e := "hoopty/doopty", "foopty", "foo/bar", "car", "ts";
    assert t == d1 + "/" + n1 + "." + e && p == d2 + "/" + n2 + "." + e;
    assert d1[1] == 'o' == d2[1];
    SharedDirByteScoresPositive(t, p, d1, n1, d2, n2, e, 1, 1);
  }

  lemma HomeAwayAgainstHoopty(t: string, p: string)
    requires t == "hoopty/doopty/foopty.ts" && p == "home/away/lets_play.ts"
    ensures Score(t, p, 10.0, 1.0) > 0.0
  {
    var d1, n1, d2, n2, e := "hoopty/doopty", "foopty", "home/away", "lets_play", "ts";
    assert t == d1 + "/" + n1 + "." + e && p == d2 + "/" + n2 + "." + e;
    assert d1[0] == 'h' == d2[0];
    SharedDirByteScoresPositive(t, p, d1, n1, d2, n2, e, 0, 0);
  }

  /** `score_paths_with_same_path_it_should_filter_same_path`. */
  lemma ScorePathsFiltersSamePath(paths: seq<string>, t: string)
    requires paths == ["foo/bar/car.ts", "hoopty/doopty/foopty.ts", "home/away/lets_play.ts"]
    requires t == "hoopty/doopty/foopty.ts"
    ensures var r := ScorePaths(paths, t, 10.0, 1.0);
      |r| == 2 && r[0].path == "foo/bar/car.ts" && r[1].path == "home/away/lets_play.ts"
      && r[0].score > 0.0 && r[1].score > 0.0
  {
    FixturePathsAreClean(paths);
    assert paths[0][0] != t[0] && paths[2][2] != t[2];
    ScoreThreeDroppingMiddle(paths, t, 10.0, 1.0);
    FooBarAgainstHoopty(t, paths[0]);
    HomeAwayAgainstHoopty(t, paths[2]);
  }

  lemma AgainstPersonPlace(t: string, p: string, d2: string, n2: string, j: nat)
    requires t == "person/place/thing.ts" && d2 != "" && n2 != "" && '/' !in n2
    requires p == d2 + "/" + n2 + ".ts" && j < |d2| && d2[j] == 'o'
    ensures Score(t, p, 10.0, 1.0) > 0.0
  {
    var d1, n1, e := "person/place", "thing", "ts";
    assert t == d1 + "/" + n1 + "." + e && p == d2 + "/" + n2 + "." + e;
    assert d1[4] == 'o';
    SharedDirByteScoresPositive(t, p, d1, n1, d2, n2, e, 4, j);
  }

  lemma FooBarAgainstPerson(t: string, p: string)
    requires t == "person/place/thing.ts" && p == "foo/bar/car.ts"
    ensures Score(t, p, 10.0, 1.0) > 0.0
  {
    var d, n := "foo/bar", "car";
    assert p == d + "/" + n + ".ts" && d[1] == 'o';
    AgainstPersonPlace(t, p, d, n, 1);
  }

  lemma HooptyAgainstPerson(t: string, p: string)
    requires t == "person/place/thing.ts" && p == "hoopty/doopty/foopty.ts"
    ensures Score(t, p, 10.0, 1.0) > 0.0
  {
    var d, n := "hoopty/doopty", "foopty";
    assert p == d + "/" + n + ".ts" && d[1] == 'o';
    AgainstPersonPlace(t, p, d, n, 1);
  }

  lemma HomeAwayAgainstPerson(t: string, p: string)
    requires t == "person/place/thing.ts" && p == "home/away/lets_play.ts"
    ensures Score(t, p, 10.0, 1.0) > 0.0
  {
    var d, n := "home/away", "lets_play";
    assert p == d + "/" + n + ".ts" && d[1] == 'o';
    AgainstPersonPlace(t, p, d, n, 1);
  }

  /** `score_paths_without_same_path_it_should_not_filter_same_path`. */
  lemma ScorePathsKeepsOtherPaths(paths: seq<string>, t: string)
    requires paths == ["foo/bar/car.ts", "hoopty/doopty/foopty.ts", "home/away/lets_play.ts"]
    requires t == "person/place/thing.ts"
    ensures var r := ScorePaths(paths, t, 10.0, 1.0);
      |r| == 3 && r[0].path == "foo/bar/car.ts" && r[1].path == "hoopty/doopty/foopty.ts"
      && r[2].path == "home/away/lets_play.ts" && r[0].score > 0.0 && r[1].score > 0.0 && r[2].score > 0.0
  {
    FixturePathsAreClean(paths);
    assert paths[0][0] != t[0] && paths[1][0] != t[0] && paths[2][0] != t[0];
    ScoreThreeKeepingAll(paths, t, 10.0, 1.0);
    FooBarAgainstPerson(t, paths[0]);
    HooptyAgainstPerson(t, paths[1]);
    HomeAwayAgainstPerson(t, paths[2]);
  }

  /** `score_paths_that_have_no_similarity_as_zero`. */
  lemma NoSimilarityScoresZero(p: string, q: string)
    requires p == "abc/d" && q == "xyz/e"
    ensures Score(p, q, 10.0, 1.0) == 0.0
  {
    var d1, n1, d2, n2 := "abc", "d", "xyz", "e";
    assert p == d1 + "/" + n1 && q == d2 + "/" + n2;
    SplitAtLastSlash(d1, n1);
    SplitAtLastSlash(d2, n2);
    assert StemOf(n1) == n1 && StemOf(n2) == n2;
    assert d2[0] == 'x' && d2[1] == 'y' && d2[2] == 'z';
    NoSharedByteGivesZeroRatio(n1, n2);
    NoSharedByteGivesZeroRatio(d1, d2);
    ScoreOfNamedPaths(p, q, 10.0, 1.0);
  }

  /** `score_paths_where_filenames_only_but_no_similarity_as_zero`. */
  lemma BareNamesScoreZero(p: string, q: string)
    requires p == "foo" && q == "bar"
    ensures Score(p, q, 10.0, 1.0) == 0.0
  {
    assert q[0] == 'b' && q[1] == 'a' && q[2] == 'r';
    BareNamesWithoutSharedBytes(p, q, 10.0, 1.0);
  }

  /** `score_paths_where_doesnot_have_file_name_as_zero`, against any other path. */
  lemma StemlessPathScoresZero(p: string, q: string)
    requires p == "/" || p == "/.." || p == "" || p == ".."
    ensures Score(p, q, 10.0, 1.0) == 0.0 && Score(q, p, 10.0, 1.0) == 0.0
  {
    StemlessPaths();
  }

  /** `similarity_ratio_is_not_impacted_by_size_of_match_alone`: both ratios are one third. */
  lemma RatioIsProportionNotSize(a: string, b: string, c: string, d: string)
    requires a == "foobarcar" && b == "bar" && c == "abc" && d == "b"
    ensures SimilarityRatio(a, b) == SimilarityRatio(c, d) == 1.0 / 3.0
  {
    assert a[3..6] == b && c[1..2] == d;
    RatioOfContained(a, b, 3);
    RatioOfContained(c, d, 1);
  }

  /** No three consecutive bytes of `b` are `x`, `y`, `z`. */
  predicate NoTriple(b: string, x: char, y: char, z: char) {
    forall j :: 0 <= j < |b| - 2 ==> b[j] != x || b[j + 1] != y || b[j + 2] != z
  }

  /** A common run covering positions `p .. p + 2` of `a` puts those three bytes into `b`. */
  lemma CommonRunCarriesTriple(a: string, b: string, i: nat, j: nat, l: nat, p: nat)
    requires CommonAt(a, b, i, j, l)
    ensures i <= p && p + 3 <= i + l ==>
      var q := j + p - i; q + 2 < |b| && b[q] == a[p] && b[q + 1] == a[p + 1] && b[q + 2] == a[p + 2]
  {
    if i <= p && p + 3 <= i + l {
      var q := j + p - i;
      assert a[p] == a[i..i + l][p - i] && b[q] == b[j..j + l][p - i];
      assert a[p + 1] == a[i..i + l][p - i + 1] && b[q + 1] == b[j..j + l][p - i + 1];
      assert a[p + 2] == a[i..i + l][p - i + 2] && b[q + 2] == b[j..j + l][p - i + 2];
    }
  }

  /**
   * When every run of `k` bytes of `a` covers positions `p .. p + 2` and
   * `b` does not hold those three bytes in a row, no common run reaches `k`.
   */
  lemma LcsBelowWithoutTriple(a: string, b: string, k: nat, p: nat)
    requires p + 3 <= k <= |a| && |a| - k <= p
    requires NoTriple(b, a[p], a[p + 1], a[p + 2])
    ensures LcsLength(a, b) < k
  {
    var l := LcsLength(a, b);
    var i: nat, j: nat :| CommonAt(a, b, i, j, l);
    CommonRunCarriesTriple(a, b, i, j, l, p);
  }

  /** The ratio of two fixed lengths lies between its values at the bounds of the common run. */
  lemma RatioBetween(lo: nat, l: nat, hi: nat, n1: nat, n2: nat)
    requires 0 < n1 && 0 < n2 && lo <= l <= hi <= n1 && hi <= n2
    ensures Ratio(lo, n1, n2) <= Ratio(l, n1, n2) <= Ratio(hi, n1, n2)
  {
    if lo < l {
      RatioMonotone(lo, l, n1, n2);
    }
    if l < hi {
      RatioMonotone(l, hi, n1, n2);
    }
  }

  /** `ScoreOfFilePaths` with the weighted sum written out. */
  lemma LinearFilePathScore(d1: string, n1: string, d2: string, n2: string, e: string, fw: real, pw: real)
    requires d1 != "" && d2 != "" && n1 != "" && n2 != "" && e != ""
    requires '/' !in n1 && '/' !in n2 && '/' !in e && '.' !in e
    ensures Score(d1 + "/" + n1 + "." + e, d2 + "/" + n2 + "." + e, fw, pw)
         == fw * SimilarityRatio(n1, n2) + pw * SimilarityRatio(d1, d2)
  {
    ScoreOfFilePaths(d1, n1, d2, n2, e, fw, pw);
    WeightedSumIsLinear(fw, SimilarityRatio(n1, n2), pw, SimilarityRatio(d1, d2));
  }

  /**
   * A non-empty prefix, `lp` bytes of a string of `lw`, has the ratio
   * `lp / lw` with it (the lengths are parameters so that a fixture's
   * ratio is a quotient of two literals).
   */
  lemma RatioOfPrefix(prefix: string, whole: string, lp: nat, lw: nat)
    requires prefix != "" && |prefix| == lp <= |whole| == lw && whole[..|prefix|] == prefix
    ensures SimilarityRatio(prefix, whole) == lp as real / lw as real
  {
    assert whole[0..|prefix|] == prefix;
    RatioOfContained(whole, prefix, 0);
    SimilarityRatioSymmetric(whole, prefix);
  }

  lemma WeightedSumIsLinear(fw: real, x: real, pw: real, y: real)
    ensures WeightedSum(fw, x, pw, y) == fw * x + pw * y
  {
  }

  /** A path whose first byte is not `.` needs no cleansing. */
  lemma CleanWithoutLeadingDot(p: string)
    requires p != "" && p[0] != '.'
    ensures CleansePath(p) == p
  {
    if |p| > 1 {
      assert p[..2][0] == p[0];
    }
  }

  /** When no candidate needs cleansing or is the target, each is scored in place. */
  lemma ScorePathsOfCleanCandidates(paths: seq<string>, t: string, fw: real, pw: real)
    requires forall k :: 0 <= k < |paths| ==> CleansePath(paths[k]) == paths[k] && paths[k] != t
    ensures |ScorePaths(paths, t, fw, pw)| == |paths|
    ensures forall k :: 0 <= k < |paths| ==> ScorePaths(paths, t, fw, pw)[k] == ScoredPath(Score(t, paths[k], fw, pw), paths[k])
  {
    var r, idx := ScorePaths(paths, t, fw, pw), KeptIndices(paths, t);
    ScorePathsKeepsOrder(paths, t, fw, pw);
    KeptFromAll(paths, t, 0);
    forall k | 0 <= k < |paths| ensures r[k] == ScoredPath(Score(t, paths[k], fw, pw), paths[k]) {
      ScorePathsAt(paths, t, fw, pw, k);
      assert idx[k] == k;
    }
  }

  /**
   * One candidate named `aé.rs` among ASCII names makes the ranking panic,
   * whatever the target and weights.
   */
  lemma ScorePathsPanicsOnCutCharacter(t: string, fw: real, pw: real)
    ensures ScorePathsAsWritten(["foo/bar.rs", "a\U{C3}\U{A9}.rs"], t, fw, pw) == Panicked
  {
    var paths := ["foo/bar.rs", "a\U{C3}\U{A9}.rs"];
    assert SplitsFirstCharacters(paths[1]) by { assert paths[1][2] == '\U{A9}'; }
    ScorePathsAsWrittenPanics(paths, t, fw, pw);
  }

  /** `similarity_ratio_is_zero_when_one_or_more_strings_is_empty`. */
  lemma SimilarityRatioOfEmpty()
    ensures SimilarityRatio("", "foo/bar/car.ts") == 0.0
    ensures SimilarityRatio("foo/bar/car.ts", "") == 0.0
    ensures SimilarityRatio("", "") == 0.0
  {
  }
}
