/**
 * The `find_alt` tests of src/alt/mod.rs as lemmas, on the five
 * `nft-wallet` candidates and the target `src/models/nft-wallet.ts`.
 * Scores are not computed to the digit: each directory ratio is bounded
 * tightly enough to fix the order the tests expect.
 */
module AltExamples {
  import opened Strings
  import opened PathUtils
  import opened Scoring
  import opened ScoringExamples
  import opened Alt

  /** `dir/stem.ts`. */
  function TsPath(dir: string, stem: string): string {
    dir + "/" + stem + ".ts"
  }

  /** The target of the tests, `src/models/nft-wallet.ts`. */
  predicate WalletTarget(t: string) {
    t == TsPath("src/models", "nft-wallet")
  }

  /** The five candidates of the tests, in their input order, cut into directory and stem. */
  predicate WalletCandidates(paths: seq<string>) {
    paths == [TsPath("src/database/nft-wallet", "nft-wallet.repository.spec"), TsPath("src/models/mocks", "nft-wallet.mocks"),
              TsPath("src/concerns/nft/models/mockes", "nft-wallet.mocks"), TsPath("src/concerns/nft/models", "nft-wallet"),
              TsPath("src/database/nft-wallet", "nft-wallet.repository")]
  }

  /** The cut pieces spell the paths of the tests. */
  lemma WalletPathsAsWritten(paths: seq<string>, t: string)
    requires WalletCandidates(paths) && WalletTarget(t)
    ensures t == "src/models/nft-wallet.ts"
    ensures paths == ["src/database/nft-wallet/nft-wallet.repository.spec.ts", "src/models/mocks/nft-wallet.mocks.ts",
                      "src/concerns/nft/models/mockes/nft-wallet.mocks.ts", "src/concerns/nft/models/nft-wallet.ts",
                      "src/database/nft-wallet/nft-wallet.repository.ts"]
  {
    assert paths[0] == TsPath("src/database/nft-wallet", "nft-wallet.repository.spec");
    Piece0(paths[0]);
    Piece1(paths[1]);
    Piece2(paths[2]);
    Piece3(paths[3]);
    Piece4(paths[4]);
  }

  lemma Piece0(p: string)
    requires p == TsPath("src/database/nft-wallet", "nft-wallet.repository.spec")
    ensures p == "src/database/nft-wallet/nft-wallet.repository.spec.ts"
  {
  }

  lemma Piece1(p: string)
    requires p == TsPath("src/models/mocks", "nft-wallet.mocks")
    ensures p == "src/models/mocks/nft-wallet.mocks.ts"
  {
  }

  lemma Piece2(p: string)
    requires p == TsPath("src/concerns/nft/models/mockes", "nft-wallet.mocks")
    ensures p == "src/concerns/nft/models/mockes/nft-wallet.mocks.ts"
  {
  }

  lemma Piece3(p: string)
    requires p == TsPath("src/concerns/nft/models", "nft-wallet")
    ensures p == "src/concerns/nft/models/nft-wallet.ts"
  {
  }

  lemma Piece4(p: string)
    requires p == TsPath("src/database/nft-wallet", "nft-wallet.repository")
    ensures p == "src/database/nft-wallet/nft-wallet.repository.ts"
  {
  }

  /** `src/models` against `src/database/nft-wallet`: no common run of seven, since the second has no `/mo`. */
  lemma DatabaseDir(a: string, b: string)
    requires a == "src/models" && b == "src/database/nft-wallet"
    ensures SimilarityRatio(a, b) <= 0.157
  {
    assert a[3] == '/' && a[4] == 'm' && a[5] == 'o';
    assert NoTriple(b, '/', 'm', 'o');
    LcsBelowWithoutTriple(a, b, 7, 3);
    RatioBetween(0, LcsLength(a, b), 6, 10, 23);
    assert Ratio(6, 10, 23) == 0.6 * (6.0 / 23.0);
  }

  /** `src/models` against `src/concerns/nft/models`: they share `/models`. */
  lemma ConcernsDir(a: string, b: string)
    requires a == "src/models" && b == "src/concerns/nft/models"
    ensures 0.213 <= SimilarityRatio(a, b) <= 0.435
  {
    assert a[3..10] == b[16..23];
    assert CommonAt(a, b, 3, 16, 7);
    LcsBounded(a, b);
    RatioBetween(7, LcsLength(a, b), 10, 10, 23);
    assert Ratio(7, 10, 23) == 0.7 * (7.0 / 23.0) && Ratio(10, 10, 23) == 10.0 / 23.0;
  }

  /** `src/models` against `src/concerns/nft/models/mockes`: `/models` is common, and no run of nine, since there is no `c/m`. */
  lemma MockesDir(a: string, b: string)
    requires a == "src/models" && b == "src/concerns/nft/models/mockes"
    ensures 0.163 <= SimilarityRatio(a, b) <= 0.214
  {
    assert a[3..10] == b[16..23];
    assert CommonAt(a, b, 3, 16, 7);
    assert a[2] == 'c' && a[3] == '/' && a[4] == 'm';
    assert NoTriple(b, 'c', '/', 'm');
    LcsBelowWithoutTriple(a, b, 9, 2);
    RatioBetween(7, LcsLength(a, b), 8, 10, 30);
    assert Ratio(7, 10, 30) == 0.7 * (7.0 / 30.0) && Ratio(8, 10, 30) == 0.8 * (8.0 / 30.0);
  }

  /** `src/models` is a prefix of `src/models/mocks`. */
  lemma MocksDir(a: string, b: string)
    requires a == "src/models" && b == "src/models/mocks"
    ensures SimilarityRatio(a, b) == 10.0 / 16.0
  {
    assert b[..10] == a;
    RatioOfPrefix(a, b, 10, 16);
  }

  /** The target's stem `nft-wallet` opens every candidate's stem. */
  lemma SpecStem(tn: string, n: string)
    requires tn == "nft-wallet" && n == "nft-wallet.repository.spec"
    ensures SimilarityRatio(tn, n) == 10.0 / 26.0 && '/' !in n
  {
    assert n[..10] == tn;
    RatioOfPrefix(tn, n, 10, 26);
  }

  lemma MocksStem(tn: string, n: string)
    requires tn == "nft-wallet" && n == "nft-wallet.mocks"
    ensures SimilarityRatio(tn, n) == 10.0 / 16.0 && '/' !in n
  {
    assert n[..10] == tn;
    RatioOfPrefix(tn, n, 10, 16);
  }

  lemma RepositoryStem(tn: string, n: string)
    requires tn == "nft-wallet" && n == "nft-wallet.repository"
    ensures SimilarityRatio(tn, n) == 10.0 / 21.0 && '/' !in n
  {
    assert n[..10] == tn;
    RatioOfPrefix(tn, n, 10, 21);
  }

  lemma SameStem(tn: string)
    requires tn == "nft-wallet"
    ensures SimilarityRatio(tn, tn) == 1.0 && '/' !in tn
  {
    SimilarityRatioIsOneIff(tn, tn);
  }

  /** A candidate `d/n.ts` scored against the target `td/tn.ts`. */
  lemma Candidate(t: string, p: string, td: string, tn: string, d: string, n: string, fw: real, pw: real)
    requires t == TsPath(td, tn) && td != "" && tn != "" && '/' !in tn
    requires p == TsPath(d, n) && d != "" && n != "" && '/' !in n
    ensures Score(t, p, fw, pw) == fw * SimilarityRatio(tn, n) + pw * SimilarityRatio(td, d)
  {
    var e := "ts";
    assert ".ts" == "." + e;
    assert t == td + "/" + tn + "." + e && p == d + "/" + n + "." + e;
    LinearFilePathScore(td, tn, d, n, e, fw, pw);
  }

  /** Each candidate's score as its stem ratio and its directory ratio weigh it. */
  lemma WalletScores(paths: seq<string>, t: string, fw: real, pw: real, td: string, tn: string, n0: string, n1: string, n4: string, d0: string, d1: string, d2: string, d3: string)
    requires WalletCandidates(paths) && WalletTarget(t)
    requires td == "src/models" && tn == "nft-wallet"
    requires n0 == "nft-wallet.repository.spec" && n1 == "nft-wallet.mocks" && n4 == "nft-wallet.repository"
    requires d0 == "src/database/nft-wallet" && d1 == "src/models/mocks"
    requires d2 == "src/concerns/nft/models/mockes" && d3 == "src/concerns/nft/models"
    ensures ScoredAs(t, paths, fw, pw, SimilarityRatio(tn, n0), SimilarityRatio(tn, n1), SimilarityRatio(tn, tn), SimilarityRatio(tn, n4),
                     SimilarityRatio(td, d0), SimilarityRatio(td, d1), SimilarityRatio(td, d2), SimilarityRatio(td, d3))
  {
    assert '/' !in tn && '/' !in n0 && '/' !in n1 && '/' !in n4;
    assert t == TsPath(td, tn);
    assert paths[0] == TsPath(d0, n0) && paths[1] == TsPath(d1, n1) && paths[2] == TsPath(d2, n1);
    assert paths[3] == TsPath(d3, tn) && paths[4] == TsPath(d0, n4);
    Candidate(t, paths[0], td, tn, d0, n0, fw, pw);
    Candidate(t, paths[1], td, tn, d1, n1, fw, pw);
    Candidate(t, paths[2], td, tn, d2, n1, fw, pw);
    Candidate(t, paths[3], td, tn, d3, tn, fw, pw);
    Candidate(t, paths[4], td, tn, d0, n4, fw, pw);
  }

  /** The stem and directory ratios of the candidates, exact or bounded. */
  lemma WalletRatios(td: string, tn: string, n0: string, n1: string, n4: string, d0: string, d1: string, d2: string, d3: string)
    requires td == "src/models" && tn == "nft-wallet"
    requires n0 == "nft-wallet.repository.spec" && n1 == "nft-wallet.mocks" && n4 == "nft-wallet.repository"
    requires d0 == "src/database/nft-wallet" && d1 == "src/models/mocks"
    requires d2 == "src/concerns/nft/models/mockes" && d3 == "src/concerns/nft/models"
    ensures RatiosAs(SimilarityRatio(tn, n0), SimilarityRatio(tn, n1), SimilarityRatio(tn, tn), SimilarityRatio(tn, n4),
                     SimilarityRatio(td, d0), SimilarityRatio(td, d1), SimilarityRatio(td, d2), SimilarityRatio(td, d3))
  {
    SpecStem(tn, n0);
    MocksStem(tn, n1);
    SameStem(tn);
    RepositoryStem(tn, n4);
    DatabaseDir(td, d0);
    MocksDir(td, d1);
    MockesDir(td, d2);
    ConcernsDir(td, d3);
  }

  /** The order the ratios force on scores `fw * x + pw * y`, for both weightings of the tests. */
  lemma WeightedOrder(fw: real, pw: real, s0: real, s1: real, s2: real, s3: real, s4: real,
                      x0: real, x1: real, x3: real, x4: real, y0: real, y1: real, y2: real, y3: real)
    requires s0 == fw * x0 + pw * y0 && s1 == fw * x1 + pw * y1 && s2 == fw * x1 + pw * y2
    requires s3 == fw * x3 + pw * y3 && s4 == fw * x4 + pw * y0
    requires x0 == 10.0 / 26.0 && x1 == 10.0 / 16.0 && x3 == 1.0 && x4 == 10.0 / 21.0
    requires 0.0 <= y0 <= 0.157 && y1 == 10.0 / 16.0 && 0.163 <= y2 <= 0.214 && 0.213 <= y3 <= 0.435
    ensures (fw, pw) == (10.0, 1.0) ==> s3 > s1 > s2 > s4 > s0
    ensures (fw, pw) == (1.0, 10.0) ==> s1 > s3 > s2 > s4 > s0
  {
  }

  /** Each of five scores against `t` is the weighted sum of its stem ratio and its directory ratio. */
  predicate ScoredAs(t: string, ps: seq<string>, fw: real, pw: real,
                     x0: real, x1: real, x3: real, x4: real, y0: real, y1: real, y2: real, y3: real) {
    |ps| == 5
    && Score(t, ps[0], fw, pw) == fw * x0 + pw * y0 && Score(t, ps[1], fw, pw) == fw * x1 + pw * y1
    && Score(t, ps[2], fw, pw) == fw * x1 + pw * y2 && Score(t, ps[3], fw, pw) == fw * x3 + pw * y3
    && Score(t, ps[4], fw, pw) == fw * x4 + pw * y0
  }

  /** The stem ratios exactly and the directory ratios within bounds, as the tests' paths give them. */
  predicate RatiosAs(x0: real, x1: real, x3: real, x4: real, y0: real, y1: real, y2: real, y3: real) {
    x0 == 10.0 / 26.0 && x1 == 10.0 / 16.0 && x3 == 1.0 && x4 == 10.0 / 21.0
    && 0.0 <= y0 <= 0.157 && y1 == 10.0 / 16.0 && 0.163 <= y2 <= 0.214 && 0.213 <= y3 <= 0.435
  }

  /**
   * The two score orders of any five paths whose scores are weighted sums
   * of ratios bounded as in the tests; nothing about the paths is known here.
   */
  lemma ScoreOrder(t: string, ps: seq<string>, fw: real, pw: real,
                   x0: real, x1: real, x3: real, x4: real, y0: real, y1: real, y2: real, y3: real)
    requires ScoredAs(t, ps, fw, pw, x0, x1, x3, x4, y0, y1, y2, y3)
    requires RatiosAs(x0, x1, x3, x4, y0, y1, y2, y3)
    ensures (fw, pw) == (10.0, 1.0) ==> Score(t, ps[3], fw, pw) > Score(t, ps[1], fw, pw) > Score(t, ps[2], fw, pw) > Score(t, ps[4], fw, pw) > Score(t, ps[0], fw, pw)
    ensures (fw, pw) == (1.0, 10.0) ==> Score(t, ps[1], fw, pw) > Score(t, ps[3], fw, pw) > Score(t, ps[2], fw, pw) > Score(t, ps[4], fw, pw) > Score(t, ps[0], fw, pw)
  {
    WeightedOrder(fw, pw, Score(t, ps[0], fw, pw), Score(t, ps[1], fw, pw), Score(t, ps[2], fw, pw),
                  Score(t, ps[3], fw, pw), Score(t, ps[4], fw, pw), x0, x1, x3, x4, y0, y1, y2, y3);
  }

  /** With the weights of the tests, file name 10 and path 1. */
  lemma FileWeightedScores(paths: seq<string>, t: string)
    requires WalletCandidates(paths) && WalletTarget(t)
    ensures Score(t, paths[3], 10.0, 1.0) > Score(t, paths[1], 10.0, 1.0) > Score(t, paths[2], 10.0, 1.0)
      > Score(t, paths[4], 10.0, 1.0) > Score(t, paths[0], 10.0, 1.0)
  {
    WeightedScores(paths, t, 10.0, 1.0);
  }

  /** With the weights swapped, file name 1 and path 10. */
  lemma PathWeightedScores(paths: seq<string>, t: string)
    requires WalletCandidates(paths) && WalletTarget(t)
    ensures Score(t, paths[1], 1.0, 10.0) > Score(t, paths[3], 1.0, 10.0) > Score(t, paths[2], 1.0, 10.0)
      > Score(t, paths[4], 1.0, 10.0) > Score(t, paths[0], 1.0, 10.0)
  {
    WeightedScores(paths, t, 1.0, 10.0);
  }

  /** Both orders of the tests' candidates, one per pair of weights. */
  lemma WeightedScores(paths: seq<string>, t: string, fw: real, pw: real)
    requires WalletCandidates(paths) && WalletTarget(t)
    ensures (fw, pw) == (10.0, 1.0) ==> Score(t, paths[3], fw, pw) > Score(t, paths[1], fw, pw) > Score(t, paths[2], fw, pw) > Score(t, paths[4], fw, pw) > Score(t, paths[0], fw, pw)
    ensures (fw, pw) == (1.0, 10.0) ==> Score(t, paths[1], fw, pw) > Score(t, paths[3], fw, pw) > Score(t, paths[2], fw, pw) > Score(t, paths[4], fw, pw) > Score(t, paths[0], fw, pw)
  {
    var td, tn, n0, n1, n4 := "src/models", "nft-wallet", "nft-wallet.repository.spec", "nft-wallet.mocks", "nft-wallet.repository";
    var d0, d1, d2, d3 := "src/database/nft-wallet", "src/models/mocks", "src/concerns/nft/models/mockes", "src/concerns/nft/models";
    WalletScores(paths, t, fw, pw, td, tn, n0, n1, n4, d0, d1, d2, d3);
    WalletRatios(td, tn, n0, n1, n4, d0, d1, d2, d3);
    ScoreOrder(t, paths, fw, pw, SimilarityRatio(tn, n0), SimilarityRatio(tn, n1), SimilarityRatio(tn, tn), SimilarityRatio(tn, n4),
               SimilarityRatio(td, d0), SimilarityRatio(td, d1), SimilarityRatio(td, d2), SimilarityRatio(td, d3));
  }

  /** The target and the candidates need no cleansing, and no candidate is the target. */
  lemma WalletPathsAreClean(paths: seq<string>, t: string)
    requires WalletCandidates(paths) && WalletTarget(t)
    ensures CleansePath(t) == t
    ensures forall k :: 0 <= k < |paths| ==> CleansePath(paths[k]) == paths[k] && paths[k] != t
  {
    assert t[0] == 's';
    CleanWithoutLeadingDot(t);
    forall k | 0 <= k < |paths| ensures CleansePath(paths[k]) == paths[k] && paths[k] != t {
      assert paths[k][0] == 's' && |paths[k]| > |t|;
      CleanWithoutLeadingDot(paths[k]);
    }
  }

  /** The candidate at `k` paired with its score. */
  function Entry(paths: seq<string>, t: string, fw: real, pw: real, k: nat): ScoredPath
    requires k < |paths|
  {
    ScoredPath(Score(t, paths[k], fw, pw), paths[k])
  }

  /** Five candidates scored in place whose scores fall in the order 3, 1, 2, 4, 0 come out in that order. */
  lemma Ranked31240(paths: seq<string>, t: string, fw: real, pw: real)
    requires |paths| == 5 && |ScorePaths(paths, t, fw, pw)| == 5
    requires forall k :: 0 <= k < 5 ==> ScorePaths(paths, t, fw, pw)[k] == ScoredPath(Score(t, paths[k], fw, pw), paths[k])
    requires Score(t, paths[3], fw, pw) > Score(t, paths[1], fw, pw) > Score(t, paths[2], fw, pw) > Score(t, paths[4], fw, pw) > Score(t, paths[0], fw, pw)
    ensures Alternates(t, paths, 0, fw, pw) == [Entry(paths, t, fw, pw, 3), Entry(paths, t, fw, pw, 1), Entry(paths, t, fw, pw, 2), Entry(paths, t, fw, pw, 4), Entry(paths, t, fw, pw, 0)]
  {
    var x := ScorePaths(paths, t, fw, pw);
    Sort31240(x);
    assert [Entry(paths, t, fw, pw, 3), Entry(paths, t, fw, pw, 1), Entry(paths, t, fw, pw, 2), Entry(paths, t, fw, pw, 4), Entry(paths, t, fw, pw, 0)] == [x[3], x[1], x[2], x[4], x[0]];
  }

  /** Five candidates scored in place whose scores fall in the order 1, 3, 2, 4, 0 come out in that order. */
  lemma Ranked13240(paths: seq<string>, t: string, fw: real, pw: real)
    requires |paths| == 5 && |ScorePaths(paths, t, fw, pw)| == 5
    requires forall k :: 0 <= k < 5 ==> ScorePaths(paths, t, fw, pw)[k] == ScoredPath(Score(t, paths[k], fw, pw), paths[k])
    requires Score(t, paths[1], fw, pw) > Score(t, paths[3], fw, pw) > Score(t, paths[2], fw, pw) > Score(t, paths[4], fw, pw) > Score(t, paths[0], fw, pw)
    ensures Alternates(t, paths, 0, fw, pw) == [Entry(paths, t, fw, pw, 1), Entry(paths, t, fw, pw, 3), Entry(paths, t, fw, pw, 2), Entry(paths, t, fw, pw, 4), Entry(paths, t, fw, pw, 0)]
  {
    var x := ScorePaths(paths, t, fw, pw);
    Sort13240(x);
    assert [Entry(paths, t, fw, pw, 1), Entry(paths, t, fw, pw, 3), Entry(paths, t, fw, pw, 2), Entry(paths, t, fw, pw, 4), Entry(paths, t, fw, pw, 0)] == [x[1], x[3], x[2], x[4], x[0]];
  }

  lemma FiveEntries(x: seq<ScoredPath>)
    requires |x| == 5
    ensures multiset(x) == multiset{x[0], x[1], x[2], x[3], x[4]}
  {
    assert x == [x[0], x[1], x[2], x[3], x[4]];
  }

  /** Five entries whose scores fall in the order 3, 1, 2, 4, 0 sort into that order. */
  lemma Sort31240(x: seq<ScoredPath>)
    requires |x| == 5 && x[3].score > x[1].score > x[2].score > x[4].score > x[0].score
    ensures StableSortByScore(x) == [x[3], x[1], x[2], x[4], x[0]]
  {
    var r := [x[3], x[1], x[2], x[4], x[0]];
    FiveEntries(x);
    FiveEntries(r);
    assert DistinctScores(x);
    SortOfDistinctScores(x, r);
  }

  /** Five entries whose scores fall in the order 1, 3, 2, 4, 0 sort into that order. */
  lemma Sort13240(x: seq<ScoredPath>)
    requires |x| == 5 && x[1].score > x[3].score > x[2].score > x[4].score > x[0].score
    ensures StableSortByScore(x) == [x[1], x[3], x[2], x[4], x[0]]
  {
    var r := [x[1], x[3], x[2], x[4], x[0]];
    FiveEntries(x);
    FiveEntries(r);
    assert DistinctScores(x);
    SortOfDistinctScores(x, r);
  }

  /** `find_alt_scores_paths_and_sorts_them_by_score`, and with a zero truncation length `..._does_not_truncate_results_when_truncate_len_is_zero`. */
  lemma FindAltSortsByScore(paths: seq<string>, t: string)
    requires WalletCandidates(paths) && WalletTarget(t)
    ensures Alternates(t, paths, 0, 10.0, 1.0) == [Entry(paths, t, 10.0, 1.0, 3), Entry(paths, t, 10.0, 1.0, 1), Entry(paths, t, 10.0, 1.0, 2), Entry(paths, t, 10.0, 1.0, 4), Entry(paths, t, 10.0, 1.0, 0)]
  {
    WalletPathsAreClean(paths, t);
    ScorePathsOfCleanCandidates(paths, t, 10.0, 1.0);
    FileWeightedScores(paths, t);
    Ranked31240(paths, t, 10.0, 1.0);
  }

  /** `find_alt_truncates_when_truncate_len_is_greater_than_zero`: the best three. */
  lemma FindAltTruncates(paths: seq<string>, t: string)
    requires WalletCandidates(paths) && WalletTarget(t)
    ensures Alternates(t, paths, 3, 10.0, 1.0) == [Entry(paths, t, 10.0, 1.0, 3), Entry(paths, t, 10.0, 1.0, 1), Entry(paths, t, 10.0, 1.0, 2)]
  {
    FindAltSortsByScore(paths, t);
    TruncatedToThree(t, paths, 10.0, 1.0, Entry(paths, t, 10.0, 1.0, 3), Entry(paths, t, 10.0, 1.0, 1),
                     Entry(paths, t, 10.0, 1.0, 2), Entry(paths, t, 10.0, 1.0, 4), Entry(paths, t, 10.0, 1.0, 0));
  }

  /** Truncating five alternates to three keeps the first three. */
  lemma TruncatedToThree(t: string, paths: seq<string>, fw: real, pw: real, a: ScoredPath, b: ScoredPath, c: ScoredPath, d: ScoredPath, e: ScoredPath)
    requires Alternates(t, paths, 0, fw, pw) == [a, b, c, d, e]
    ensures Alternates(t, paths, 3, fw, pw) == [a, b, c]
  {
    AlternatesTruncated(t, paths, 3, fw, pw);
    assert [a, b, c, d, e][..3] == [a, b, c];
  }

  /** `find_alt_scores_paths_and_drops_full_matches`: the target among the candidates is dropped. */
  lemma FindAltDropsFullMatch(paths: seq<string>, t: string)
    requires WalletCandidates(paths) && WalletTarget(t)
    ensures Alternates(t, [t] + paths, 0, 10.0, 1.0) == [Entry(paths, t, 10.0, 1.0, 3), Entry(paths, t, 10.0, 1.0, 1), Entry(paths, t, 10.0, 1.0, 2), Entry(paths, t, 10.0, 1.0, 4), Entry(paths, t, 10.0, 1.0, 0)]
  {
    WalletPathsAreClean(paths, t);
    ScorePathsConcat([t], paths, t, 10.0, 1.0);
    ScorePathsOfOne(t, t, 10.0, 1.0);
    assert ScorePaths([t] + paths, t, 10.0, 1.0) == ScorePaths(paths, t, 10.0, 1.0);
    FindAltSortsByScore(paths, t);
  }

  /** `find_alt_with_larger_path_weight`: the two best change places. */
  lemma FindAltWithLargerPathWeight(paths: seq<string>, t: string)
    requires WalletCandidates(paths) && WalletTarget(t)
    ensures Alternates(t, paths, 0, 1.0, 10.0) == [Entry(paths, t, 1.0, 10.0, 1), Entry(paths, t, 1.0, 10.0, 3), Entry(paths, t, 1.0, 10.0, 2), Entry(paths, t, 1.0, 10.0, 4), Entry(paths, t, 1.0, 10.0, 0)]
  {
    WalletPathsAreClean(paths, t);
    ScorePathsOfCleanCandidates(paths, t, 1.0, 10.0);
    PathWeightedScores(paths, t);
    Ranked13240(paths, t, 1.0, 10.0);
  }

  /** The five scored paths of the two truncation tests. */
  const TruncateFixture: seq<ScoredPath> := [
    ScoredPath(0.8, "some/path/to/a/file.ts"),
    ScoredPath(0.4, "some/path/to/another/foo.ts"),
    ScoredPath(0.2, "some/other_path/to/a/bar.ts"),
    ScoredPath(0.1, "some/short/path/zoo.ts"),
    ScoredPath(0.023, "some/blue/fortytwo/sports_ball.ts")]

  /** `truncate_scored_paths_with_zero_len`: a length of 0 keeps all five. */
  lemma TruncateWithZeroLen()
    ensures |TruncateScoredPaths(TruncateFixture, 0)| == 5
  {
  }

  /** `truncate_scored_paths_with_non_zero_len`: a length of 3 keeps the first three. */
  lemma TruncateWithNonZeroLen()
    ensures |TruncateScoredPaths(TruncateFixture, 3)| == 3
    ensures TruncateScoredPaths(TruncateFixture, 3) == TruncateFixture[..3]
  {
  }

  /** `order_scored_paths_with_a_larger`: the larger score sorts first. */
  lemma OrderWithALarger()
    ensures OrderScoredPaths(ScoredPath(0.3, "some/path/to/a/file.ts"), ScoredPath(0.2, "some/other/path/bar.ts")) == Less
  {
  }

  /** `order_scored_paths_with_a_smaller`: the smaller score sorts last. */
  lemma OrderWithASmaller()
    ensures OrderScoredPaths(ScoredPath(0.2, "some/path/to/a/file.ts"), ScoredPath(0.3, "some/other/path/bar.ts")) == Greater
  {
  }

  /** `order_scored_paths_with_a_and_b_equal`: equal scores compare equal, whatever the paths. */
  lemma OrderWithAAndBEqual()
    ensures OrderScoredPaths(ScoredPath(0.3, "some/path/to/a/file.ts"), ScoredPath(0.3, "some/other/path/bar.ts")) == Equal
  {
  }
}
