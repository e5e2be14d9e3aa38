/**
 * Ranking of candidates (src/alt/mod.rs): the descending comparator, the
 * stable sort `sort_by` performs with it, truncation, `find_alt` and the
 * chunked `find_alt_with_threads`.
 */
module Alt {
  import opened Wrappers
  import opened PathUtils
  import opened Scoring

  /** `std::cmp::Ordering`. */
  datatype Ordering = Less | Equal | Greater

  /** `order_scored_paths`: a higher score sorts first. */
  function OrderScoredPaths(a: ScoredPath, b: ScoredPath): (o: Ordering)
    ensures o == Less <==> a.score > b.score
    ensures o == Greater <==> a.score < b.score
    ensures o == Equal <==> a.score == b.score
  {
    if a.score > b.score then Less
    else if a.score < b.score then Greater
    else Equal
  }

  /**
   * The comparator is a total preorder, as `sort_by` requires: swapping
   * the arguments mirrors the answer, and "not after" is transitive.
   */
  lemma OrderIsTotalPreorder(a: ScoredPath, b: ScoredPath, c: ScoredPath)
    ensures OrderScoredPaths(a, b) == Less <==> OrderScoredPaths(b, a) == Greater
    ensures OrderScoredPaths(a, b) == Equal <==> OrderScoredPaths(b, a) == Equal
    ensures OrderScoredPaths(a, b) != Greater && OrderScoredPaths(b, c) != Greater ==> OrderScoredPaths(a, c) != Greater
  {
  }

  /** Scores never increase along `s`: the order the comparator asks for. */
  predicate SortedDesc(s: seq<ScoredPath>) {
    forall i, j :: 0 <= i < j < |s| ==> OrderScoredPaths(s[i], s[j]) != Greater
  }

  /** The entries of `s` whose score is `v`, in their order in `s`. */
  function WithScore(s: seq<ScoredPath>, v: real): (r: seq<ScoredPath>)
    ensures |r| <= |s|
  {
    if s == [] then []
    else (if s[0].score == v then [s[0]] else []) + WithScore(s[1..], v)
  }

  /** The first entry of `s` with score `v` heads the filter; only such entries are in it. */
  lemma {:induction false} WithScoreMembers(s: seq<ScoredPath>, v: real)
    ensures s != [] && s[0].score == v ==> WithScore(s, v) != [] && WithScore(s, v)[0] == s[0]
    ensures forall e :: e in WithScore(s, v) ==> e.score == v && e in s
  {
    if s != [] {
      WithScoreMembers(s[1..], v);
    }
  }

  /** Equal-score entries keep their relative order; for a sorted result this is stability. */
  ghost predicate KeepsTies(r: seq<ScoredPath>, s: seq<ScoredPath>) {
    forall v :: WithScore(r, v) == WithScore(s, v)
  }

  lemma {:induction false} WithScoreConcat(a: seq<ScoredPath>, b: seq<ScoredPath>, v: real)
    ensures WithScore(a + b, v) == WithScore(a, v) + WithScore(b, v)
  {
    if a == [] {
      assert a + b == b;
    } else {
      var head := if a[0].score == v then [a[0]] else [];
      assert (a + b)[0] == a[0];
      assert (a + b)[1..] == a[1..] + b;
      assert WithScore(a + b, v) == head + WithScore(a[1..] + b, v);
      assert WithScore(a, v) == head + WithScore(a[1..], v);
      WithScoreConcat(a[1..], b, v);
      assert head + (WithScore(a[1..], v) + WithScore(b, v)) == (head + WithScore(a[1..], v)) + WithScore(b, v);
    }
  }

  /**
   * One step of insertion: `x` moves left past every trailing entry that
   * the comparator puts after it, and stops behind the first that it does
   * not, so it lands after all entries with the same score.
   */
  function Insert(sorted: seq<ScoredPath>, x: ScoredPath): (r: seq<ScoredPath>)
    ensures |r| == |sorted| + 1
  {
    if sorted == [] || OrderScoredPaths(sorted[|sorted| - 1], x) != Greater then sorted + [x]
    else Insert(sorted[..|sorted| - 1], x) + [sorted[|sorted| - 1]]
  }

  lemma {:induction false} InsertPermutes(sorted: seq<ScoredPath>, x: ScoredPath)
    ensures multiset(Insert(sorted, x)) == multiset(sorted) + multiset{x}
  {
    if sorted != [] && OrderScoredPaths(sorted[|sorted| - 1], x) == Greater {
      var n := |sorted| - 1;
      InsertPermutes(sorted[..n], x);
      assert sorted == sorted[..n] + [sorted[n]];
    }
  }

  /** The stable sort by `order_scored_paths`: insert each entry in turn. */
  function StableSortByScore(s: seq<ScoredPath>): (r: seq<ScoredPath>)
    ensures |r| == |s|
  {
    if s == [] then []
    else Insert(StableSortByScore(s[..|s| - 1]), s[|s| - 1])
  }

  /** The sort rearranges: nothing is added or lost. */
  lemma {:induction false} StableSortPermutes(s: seq<ScoredPath>)
    ensures multiset(StableSortByScore(s)) == multiset(s)
  {
    if s != [] {
      var n := |s| - 1;
      var front := s[..n];
      StableSortPermutes(front);
      InsertPermutes(StableSortByScore(front), s[n]);
      assert StableSortByScore(s) == Insert(StableSortByScore(front), s[n]);
      assert s == front + [s[n]];
      assert multiset(s) == multiset(front) + multiset{s[n]};
    }
  }

  lemma {:induction false} InsertKeepsSorted(sorted: seq<ScoredPath>, x: ScoredPath)
    requires SortedDesc(sorted)
    ensures SortedDesc(Insert(sorted, x))
  {
    if sorted != [] && OrderScoredPaths(sorted[|sorted| - 1], x) == Greater {
      var n := |sorted| - 1;
      var front := Insert(sorted[..n], x);
      InsertKeepsSorted(sorted[..n], x);
      InsertPermutes(sorted[..n], x);
      forall k | 0 <= k < |front| ensures front[k].score >= sorted[n].score {
        assert front[k] in multiset(front);
        assert front[k] == x || front[k] in sorted[..n];
      }
    }
  }

  lemma {:induction false} InsertKeepsTies(sorted: seq<ScoredPath>, x: ScoredPath, v: real)
    ensures WithScore(Insert(sorted, x), v) == WithScore(sorted, v) + WithScore([x], v)
  {
    if sorted == [] || OrderScoredPaths(sorted[|sorted| - 1], x) != Greater {
      WithScoreConcat(sorted, [x], v);
    } else {
      var n := |sorted| - 1;
      var last := sorted[n];
      InsertKeepsTies(sorted[..n], x, v);
      WithScoreConcat(Insert(sorted[..n], x), [last], v);
      assert sorted == sorted[..n] + [last];
      WithScoreConcat(sorted[..n], [last], v);
      assert [x][1..] == [] && [last][1..] == [];
    }
  }

  /** The sort's result is ordered by the comparator. */
  lemma {:induction false} StableSortIsSorted(s: seq<ScoredPath>)
    ensures SortedDesc(StableSortByScore(s))
  {
    if s != [] {
      StableSortIsSorted(s[..|s| - 1]);
      InsertKeepsSorted(StableSortByScore(s[..|s| - 1]), s[|s| - 1]);
    }
  }

  /** Entries with equal scores come out in their input order. */
  lemma {:induction false} StableSortKeepsTies(s: seq<ScoredPath>)
    ensures KeepsTies(StableSortByScore(s), s)
  {
    if s != [] {
      var n := |s| - 1;
      StableSortKeepsTies(s[..n]);
      forall v ensures WithScore(StableSortByScore(s), v) == WithScore(s, v) {
        InsertKeepsTies(StableSortByScore(s[..n]), s[n], v);
        assert s == s[..n] + [s[n]];
        WithScoreConcat(s[..n], [s[n]], v);
      }
    }
  }

  /**
   * Any two sequences sorted by the comparator that agree on the order of
   * every score's entries are equal: whatever stable algorithm `sort_by`
   * runs, its result is `StableSortByScore`.
   */
  lemma {:induction false} StableSortIsUnique(x: seq<ScoredPath>, y: seq<ScoredPath>)
    requires SortedDesc(x) && SortedDesc(y) && KeepsTies(x, y)
    ensures x == y
    decreases |x| + |y|
  {
    if x != [] {
      WithScoreMembers(x, x[0].score);
      assert WithScore(y, x[0].score) != [];
    }
    if y != [] {
      WithScoreMembers(y, y[0].score);
      assert WithScore(x, y[0].score) != [];
    }
    if x != [] && y != [] {
      var m, m' := x[0].score, y[0].score;
      WithScoreMembers(x, m');
      WithScoreMembers(y, m);
      assert WithScore(x, m')[0] in x;
      assert WithScore(y, m)[0] in y;
      assert m == m';
      assert x[0] == WithScore(x, m)[0] == WithScore(y, m)[0] == y[0];
      forall v ensures WithScore(x[1..], v) == WithScore(y[1..], v) {
        var head := if x[0].score == v then [x[0]] else [];
        var wx, wy := WithScore(x, v), WithScore(y, v);
        assert wx == wy;
        assert wx == head + WithScore(x[1..], v);
        assert wy == head + WithScore(y[1..], v);
        assert WithScore(x[1..], v) == wx[|head|..] == wy[|head|..] == WithScore(y[1..], v);
      }
      StableSortIsUnique(x[1..], y[1..]);
    }
  }

  /**
   * A sorted sequence that keeps every score's entries in the order of `s`
   * is what the stable sort of `s` returns.
   */
  lemma StableSortIsArrangement(s: seq<ScoredPath>, r: seq<ScoredPath>)
    requires SortedDesc(r) && KeepsTies(r, s)
    ensures StableSortByScore(s) == r
  {
    var sorted := StableSortByScore(s);
    StableSortIsSorted(s);
    StableSortKeepsTies(s);
    assert KeepsTies(sorted, r) by {
      forall v ensures WithScore(sorted, v) == WithScore(r, v) {
        assert WithScore(sorted, v) == WithScore(s, v);
      }
    }
    StableSortIsUnique(sorted, r);
  }

  /** No two entries of `s` share a score. */
  predicate DistinctScores(s: seq<ScoredPath>) {
    forall i, j :: 0 <= i < j < |s| ==> s[i].score != s[j].score
  }

  /** With distinct scores, the entries with score `v` are the one entry that has it, or none. */
  lemma {:induction false} WithScoreOfDistinct(s: seq<ScoredPath>, v: real)
    requires DistinctScores(s)
    ensures (forall i :: 0 <= i < |s| ==> s[i].score != v) ==> WithScore(s, v) == []
    ensures forall i :: 0 <= i < |s| && s[i].score == v ==> WithScore(s, v) == [s[i]]
  {
    if s != [] {
      WithScoreOfDistinct(s[1..], v);
      assert forall i :: 1 <= i < |s| ==> s[1..][i - 1] == s[i];
    }
  }

  /**
   * When no two candidates share a score, the stable sort returns the one
   * arrangement of them that is strictly descending.
   */
  lemma SortOfDistinctScores(s: seq<ScoredPath>, r: seq<ScoredPath>)
    requires multiset(s) == multiset(r) && DistinctScores(s)
    requires forall i, j :: 0 <= i < j < |r| ==> r[i].score > r[j].score
    ensures StableSortByScore(s) == r
  {
    forall v ensures WithScore(r, v) == WithScore(s, v) {
      WithScoreOfDistinct(s, v);
      WithScoreOfDistinct(r, v);
      forall i | 0 <= i < |r| && r[i].score == v ensures WithScore(s, v) == [r[i]] {
        assert r[i] in multiset(s);
        var k :| 0 <= k < |s| && s[k] == r[i];
      }
      forall k | 0 <= k < |s| && s[k].score == v ensures WithScore(r, v) == [s[k]] {
        assert s[k] in multiset(r);
        var i :| 0 <= i < |r| && r[i] == s[k];
      }
    }
    StableSortIsArrangement(s, r);
  }

  /**
   * `truncate_scored_paths`: a length of 0 keeps everything, any other
   * length keeps the first `len` entries (all of them when there are fewer).
   */
  function TruncateScoredPaths(v: seq<ScoredPath>, len: nat): (r: seq<ScoredPath>)
    ensures |r| == if len == 0 || len >= |v| then |v| else len
    ensures r == v[..|r|]
  {
    if len == 0 || len >= |v| then v else v[..len]
  }

  /** What `find_alt` returns: the scored candidates, sorted, then truncated. */
  function Alternates(cleansedPath: string, paths: seq<string>, truncateLen: nat,
                      filenameWeight: real, pathWeight: real): seq<ScoredPath>
  {
    TruncateScoredPaths(StableSortByScore(ScorePaths(paths, cleansedPath, filenameWeight, pathWeight)), truncateLen)
  }

  /**
   * In-place stable insertion sort with `order_scored_paths`: each entry
   * in turn is inserted into the sorted prefix before it.
   */
  method SortScoredPaths(a: array<ScoredPath>)
    modifies a
    ensures a[..] == StableSortByScore(old(a[..]))
  {
    ghost var original := a[..];
    for i := 0 to a.Length
      invariant a[..i] == StableSortByScore(original[..i])
      invariant a[i..] == original[i..]
    {
      InsertIntoPrefix(a, i);
      assert original[..i + 1][..i] == original[..i];
    }
    assert a[..a.Length] == a[..] && original[..a.Length] == original;
  }

  /**
   * One pass of the insertion sort: `a[i]` is lifted out and the entries
   * of `a[..i]` that it sorts before are shifted one place right.
   */
  method InsertIntoPrefix(a: array<ScoredPath>, i: nat)
    requires i < a.Length
    modifies a
    ensures a[..i + 1] == Insert(old(a[..i]), old(a[i]))
    ensures a[i + 1..] == old(a[i + 1..])
  {
    ghost var sorted := a[..i];
    var key := a[i];
    var j := i;
    while j > 0 && OrderScoredPaths(a[j - 1], key) == Greater
      invariant 0 <= j <= i
      invariant forall k :: 0 <= k < j ==> a[k] == sorted[k]
      invariant forall k :: j < k <= i ==> a[k] == sorted[k - 1]
      invariant forall k :: i < k < a.Length ==> a[k] == old(a[k])
      invariant forall k :: j <= k < i ==> OrderScoredPaths(sorted[k], key) == Greater
    {
      a[j] := a[j - 1];
      j := j - 1;
    }
    a[j] := key;
    InsertAt(sorted, j, key);
    assert a[..i + 1] == sorted[..j] + [key] + sorted[j..] by {
      forall k | 0 <= k <= i ensures a[..i + 1][k] == (sorted[..j] + [key] + sorted[j..])[k] {
      }
    }
  }

  /**
   * The key lands at `j` when the entry before `j` does not sort after it
   * and every entry from `j` on does.
   */
  lemma {:induction false} InsertAt(sorted: seq<ScoredPath>, j: nat, key: ScoredPath)
    requires j <= |sorted|
    requires j == 0 || OrderScoredPaths(sorted[j - 1], key) != Greater
    requires forall k :: j <= k < |sorted| ==> OrderScoredPaths(sorted[k], key) == Greater
    ensures Insert(sorted, key) == sorted[..j] + [key] + sorted[j..]
    decreases |sorted|
  {
    if j == |sorted| {
      assert sorted[..j] == sorted && sorted[j..] == [];
    } else {
      var n := |sorted| - 1;
      var init := sorted[..n];
      assert init[..j] == sorted[..j];
      assert forall k :: j <= k < n ==> init[k] == sorted[k];
      InsertAt(init, j, key);
      assert init[j..] + [sorted[n]] == sorted[j..];
    }
  }

  /** The tail of both variants: sort the scored candidates, then truncate. */
  method SortAndTruncate(scored: seq<ScoredPath>, truncateLen: nat) returns (r: seq<ScoredPath>)
    ensures r == TruncateScoredPaths(StableSortByScore(scored), truncateLen)
  {
    var a := new ScoredPath[|scored|](i requires 0 <= i < |scored| => scored[i]);
    assert a[..] == scored;
    SortScoredPaths(a);
    r := TruncateScoredPaths(a[..], truncateLen);
  }

  /** `find_alt`: score the candidates against the target, sort them, truncate. */
  method FindAlt(cleansedPath: string, paths: seq<string>, truncateLen: nat,
                 filenameWeight: real, pathWeight: real) returns (r: seq<ScoredPath>)
    ensures r == Alternates(cleansedPath, paths, truncateLen, filenameWeight, pathWeight)
  {
    var scored := ScorePaths(paths, cleansedPath, filenameWeight, pathWeight);
    r := SortAndTruncate(scored, truncateLen);
  }

  /**
   * Untruncated, the result is the scored candidates rearranged: nothing
   * added or lost, highest score first, equal scores in input order.
   */
  lemma AlternatesUntruncated(t: string, paths: seq<string>, fw: real, pw: real)
    ensures var r, scored := Alternates(t, paths, 0, fw, pw), ScorePaths(paths, t, fw, pw);
      multiset(r) == multiset(scored) && SortedDesc(r) && KeepsTies(r, scored)
  {
    var scored := ScorePaths(paths, t, fw, pw);
    StableSortPermutes(scored);
    StableSortIsSorted(scored);
    StableSortKeepsTies(scored);
  }

  /** A positive truncation length keeps a prefix of the untruncated result. */
  lemma AlternatesTruncated(t: string, paths: seq<string>, n: nat, fw: real, pw: real)
    requires n > 0
    ensures var all := Alternates(t, paths, 0, fw, pw);
      Alternates(t, paths, n, fw, pw) == all[..if n < |all| then n else |all|]
  {
  }

  /** Every entry returned is a cleansed candidate other than the target, paired with its score. */
  lemma AlternatesAreScoredCandidates(t: string, paths: seq<string>, n: nat, fw: real, pw: real)
    ensures forall e :: e in Alternates(t, paths, n, fw, pw) ==> e.path != t && e.score == Score(t, e.path, fw, pw)
  {
    var scored := ScorePaths(paths, t, fw, pw);
    var sorted := StableSortByScore(scored);
    StableSortPermutes(scored);
    ScorePathsEntries(paths, t, fw, pw);
    forall e | e in Alternates(t, paths, n, fw, pw) ensures e.path != t && e.score == Score(t, e.path, fw, pw) {
      assert e in multiset(sorted);
      assert e in multiset(scored);
      var k :| 0 <= k < |scored| && scored[k] == e;
    }
  }

  /**
   * Untruncated, a path is in the result exactly when some candidate
   * cleanses to it and it is not the target.
   */
  lemma AlternatesMembers(t: string, paths: seq<string>, fw: real, pw: real, x: string)
    ensures (exists e :: e in Alternates(t, paths, 0, fw, pw) && e.path == x)
        <==> x != t && exists i :: 0 <= i < |paths| && CleansePath(paths[i]) == x
  {
    var scored := ScorePaths(paths, t, fw, pw);
    var alts := Alternates(t, paths, 0, fw, pw);
    assert alts == StableSortByScore(scored);
    StableSortPermutes(scored);
    ScorePathsMembers(paths, t, fw, pw, x);
    if x != t && exists i :: 0 <= i < |paths| && CleansePath(paths[i]) == x {
      var k :| 0 <= k < |scored| && scored[k].path == x;
      assert scored[k] in multiset(alts);
      assert scored[k] in alts;
      assert exists e :: e in alts && e.path == x;
    }
    if exists e :: e in alts && e.path == x {
      var e :| e in alts && e.path == x;
      assert e in multiset(scored);
      var k :| 0 <= k < |scored| && scored[k] == e;
      assert scored[k].path == x;
      assert exists k :: 0 <= k < |scored| && scored[k].path == x;
      assert x != t && exists i :: 0 <= i < |paths| && CleansePath(paths[i]) == x;
    }
  }

  /** `FindAltWithThreadsError`. */
  datatype FindAltWithThreadsError = NoAvailableParallelism

  /** What `thread::available_parallelism` reports: a count of at least one. */
  type Parallelism = n: nat | n >= 1 witness 1

  /** The size of each chunk: `len / p + len % p`. */
  function ChunkSize(len: nat, p: Parallelism): (size: nat)
    ensures size == 0 <==> len == 0
    ensures len > 0 ==> len <= size * p
  {
    ChunkSizeCovers(len, p);
    len / p + len % p
  }

  lemma ChunkSizeCovers(len: nat, p: Parallelism)
    ensures len <= (len / p + len % p) * p
  {
    var q, m := len / p, len % p;
    assert len == q * p + m;
    assert (q + m) * p == q * p + m * p;
    assert m <= m * p;
  }

  /** `slice::chunks(size)`: consecutive pieces of `size`, the last one possibly shorter. */
  function Chunks(s: seq<string>, size: nat): (r: seq<seq<string>>)
    requires size > 0
    ensures forall k :: 0 <= k < |r| ==> 0 < |r[k]| <= size
    decreases |s|
  {
    if s == [] then []
    else if |s| <= size then [s]
    else [s[..size]] + Chunks(s[size..], size)
  }

  /** `Vec::concat`. */
  function Concat<T>(ss: seq<seq<T>>): seq<T> {
    if ss == [] then [] else ss[0] + Concat(ss[1..])
  }

  lemma {:induction false} ConcatAppend<T>(ss: seq<seq<T>>, s: seq<T>)
    ensures Concat(ss + [s]) == Concat(ss) + s
  {
    if ss != [] {
      assert (ss + [s])[1..] == ss[1..] + [s];
      ConcatAppend(ss[1..], s);
    } else {
      assert [s][1..] == [];
    }
  }

  /** Chunking loses and reorders nothing. */
  lemma {:induction false} ChunksConcat(s: seq<string>, size: nat)
    requires size > 0
    ensures Concat(Chunks(s, size)) == s
    decreases |s|
  {
    if |s| > size {
      var r := Chunks(s, size);
      ChunksConcat(s[size..], size);
      assert r[1..] == Chunks(s[size..], size);
      assert s == s[..size] + s[size..];
    } else if s != [] {
      assert [s][1..] == [];
    }
  }

  /** A list of `len` entries cut into chunks of `size` yields at most `k` chunks when `len <= size * k`. */
  lemma {:induction false} ChunkCount(s: seq<string>, size: nat, k: nat)
    requires size > 0 && |s| <= size * k
    ensures |Chunks(s, size)| <= k
    decreases |s|
  {
    if |s| > size {
      ScaleAtMostOne(size, k);
      assert |s[size..]| <= size * (k - 1);
      ChunkCount(s[size..], size, k - 1);
    }
  }

  lemma ScaleAtMostOne(size: nat, k: nat)
    ensures k <= 1 ==> size * k <= size
  {
  }

  /** The chunk size spreads a non-empty list over at most `p` chunks, one per thread. */
  lemma ChunksFitThreads(paths: seq<string>, p: Parallelism)
    requires paths != []
    ensures |Chunks(paths, ChunkSize(|paths|, p))| <= p
  {
    ChunkCount(paths, ChunkSize(|paths|, p), p);
  }

  /** The chunk size is 0 exactly for the empty list, on which `chunks` panics. */
  lemma EmptyListHasNoChunkSize(p: Parallelism)
    ensures ChunkSize(0, p) == 0
  {
  }

  /** Scoring chunk by chunk and concatenating is scoring the whole list. */
  lemma {:induction false} ScoreChunks(chunks: seq<seq<string>>, t: string, fw: real, pw: real, c: nat)
    requires c < |chunks|
    ensures ScorePaths(Concat(chunks[..c + 1]), t, fw, pw)
         == ScorePaths(Concat(chunks[..c]), t, fw, pw) + ScorePaths(chunks[c], t, fw, pw)
  {
    assert chunks[..c + 1] == chunks[..c] + [chunks[c]];
    ConcatAppend(chunks[..c], chunks[c]);
    ScorePathsConcat(Concat(chunks[..c]), chunks[c], t, fw, pw);
  }

  /**
   * `find_alt_with_threads`, with the threads run one after the other:
   * without a parallelism estimate it fails with `NoAvailableParallelism`;
   * with an empty list the chunk size is 0 and `chunks` panics; otherwise
   * it returns what `find_alt` returns.
   */
  method FindAltWithThreads(cleansedPath: string, paths: seq<string>, truncateLen: nat,
                            filenameWeight: real, pathWeight: real, available: Option<Parallelism>)
    returns (o: Outcome<Result<seq<ScoredPath>, FindAltWithThreadsError>>)
    ensures available.None? ==> o == Returned(Failure(NoAvailableParallelism))
    ensures available.Some? && paths == [] ==> o == Panicked
    ensures available.Some? && paths != [] ==>
      o == Returned(Success(Alternates(cleansedPath, paths, truncateLen, filenameWeight, pathWeight)))
  {
    if available.None? {
      return Returned(Failure(NoAvailableParallelism));
    }
    var chunkSize := ChunkSize(|paths|, available.value);
    if chunkSize == 0 {
      return Panicked;
    }
    var scored := ScoreInChunks(cleansedPath, paths, chunkSize, filenameWeight, pathWeight);
    var r := SortAndTruncate(scored, truncateLen);
    return Returned(Success(r));
  }

  /**
   * The chunk loop of `find_alt_with_threads`: one `score_paths` per chunk,
   * the per-chunk results concatenated in chunk order.
   */
  method ScoreInChunks(cleansedPath: string, paths: seq<string>, chunkSize: nat,
                       filenameWeight: real, pathWeight: real) returns (scored: seq<ScoredPath>)
    requires chunkSize > 0
    ensures scored == ScorePaths(paths, cleansedPath, filenameWeight, pathWeight)
  {
    var chunks := Chunks(paths, chunkSize);
    var collections: seq<seq<ScoredPath>> := [];
    for c := 0 to |chunks|
      invariant |collections| == c
      invariant Concat(collections) == ScorePaths(Concat(chunks[..c]), cleansedPath, filenameWeight, pathWeight)
    {
      ScoreChunks(chunks, cleansedPath, filenameWeight, pathWeight, c);
      ConcatAppend(collections, ScorePaths(chunks[c], cleansedPath, filenameWeight, pathWeight));
      collections := collections + [ScorePaths(chunks[c], cleansedPath, filenameWeight, pathWeight)];
    }
    ChunksConcat(paths, chunkSize);
    assert chunks[..|chunks|] == chunks;
    scored := Concat(collections);
  }
  /** A chunk size that is never 0: the empty list is cut into chunks of one, that is, into none. */
  function GuardedChunkSize(len: nat, p: Parallelism): (size: nat)
    ensures size > 0
    ensures len > 0 ==> size == ChunkSize(len, p)
  {
    if len == 0 then 1 else ChunkSize(len, p)
  }

  /**
   * `find_alt_with_threads` as evidently intended: the same as
   * `FindAltWithThreads` except that an empty candidate list yields an
   * empty result instead of a panic, so that whenever parallelism is
   * known the result is `find_alt`'s.
   */
  method FindAltWithThreadsGuarded(cleansedPath: string, paths: seq<string>, truncateLen: nat,
                                   filenameWeight: real, pathWeight: real, available: Option<Parallelism>)
    returns (r: Result<seq<ScoredPath>, FindAltWithThreadsError>)
    ensures available.None? ==> r == Failure(NoAvailableParallelism)
    ensures available.Some? ==> r == Success(Alternates(cleansedPath, paths, truncateLen, filenameWeight, pathWeight))
  {
    if available.None? {
      return Failure(NoAvailableParallelism);
    }
    var chunkSize := GuardedChunkSize(|paths|, available.value);
    var scored := ScoreInChunks(cleansedPath, paths, chunkSize, filenameWeight, pathWeight);
    var sorted := SortAndTruncate(scored, truncateLen);
    return Success(sorted);
  }
}
