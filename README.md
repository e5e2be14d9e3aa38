# alt: ranking alternate files, modelled in Dafny

`alt` is a command-line tool that, given the path of a file, ranks the
other paths of a project by how likely each is to be that file's
"alternate": its test when the file is an implementation, its
implementation when it is a test. This project models the core of the
library under `src/alt` and proves properties of the model.

- **Path cleansing.** `cleanse_path` removes one leading `./`. This is `PathUtils`.
- **Path queries.** `Path::file_stem` and `Path::parent` are the two
  standard-library queries the scorer uses, modelled for `/`-separated
  paths. This is `PathNames`.
- **Scoring.** This is `Scoring`. It covers:
  - the longest common substring, found with the dynamic-programming table
    (a method over an `array2`, proved to return the longest common run);
  - `similarity_ratio`, which is `(L/|a|)·(L/|b|)`;
  - `score`, which weighs the stem ratio and the parent ratio;
  - `score_paths`, which cleanses each candidate, drops the target and
    scores the rest in order.
- **Ranking.** This is `Alt`. It covers:
  - the comparator `order_scored_paths`;
  - the stable sort that `sort_by` performs with it (an in-place insertion
    sort on an `array`, proved equal to a functional stable sort, which is
    proved sorted, a permutation, order-preserving on ties and unique);
  - `truncate_scored_paths`;
  - `find_alt`;
  - `find_alt_with_threads`, whose chunking is `len/p + len%p`.
- **Classification.** `is_test_file` is one regular expression. It is
  decided by a scan, and the scan is proved equal to the three
  alternatives of the pattern. This is `Classification`.
- **Alteration.** `strip_test_words` is a regex replacement. It is
  computed by a scan that is proved to find the leftmost-first match the
  regex engine reports. This is `Alteration`.

The unit tests in the source are stated as lemmas. The tests of
`cleanse_path` are `PathUtils.CleanseExamples`. Every other test is in a
module with the `Examples` suffix.

The modules import one another, without `include`. To verify the project,
pass every `.dfy` file to `dafny verify` in one command.

Conventions of the model:
- A Rust `&str` is a `string` of bytes. Every fixture is ASCII, except the two `aé.rs` counterexamples of the cleansing panic.
- `f32` scores are `real`s.
- Sizes and lengths are `nat`s.
- Thread parallelism is a parameter `available: Option<Parallelism>`. It
  stands for the `Result` of `thread::available_parallelism`.
- A panic is the `Panicked` outcome.

## Model

| member | source | states |
|---|---|---|
| PathUtils.CleansePathShape | src/alt/path/utils/mod.rs:1-8 | the result is the input or the input minus a leading `./`, and the prefix goes exactly when the path is longer than one byte and opens with `./` |
| PathUtils.CleanseIsSuffix | src/alt/path/utils/mod.rs:1-8 | the result is a suffix of the input, two bytes shorter or equal |
| PathUtils.CleanseUndoesDotSlash | src/alt/path/utils/mod.rs:3-4 | cleansing `./p` gives `p` back for every `p` |
| PathUtils.CleanseKeepsOtherPaths | src/alt/path/utils/mod.rs:5-7 | a path of at most one byte, or one not opening with `./`, is returned unchanged |
| PathUtils.CleanseStripsOnlyOnePrefix | src/alt/path/utils/mod.rs:3-4 | only one `./` is removed, so cleansing `././a` twice differs from cleansing it once |
| PathUtils.CleanseExamples | src/alt/path/utils/mod.rs:14-25 | the two unit tests: `./hoopty/doopty.thing` loses its prefix and `foo/hoopty/doopty.thing` is unchanged |
| PathUtils.CleansePath | src/alt/path/utils/mod.rs:1-8 | `cleanse_path` for a path whose byte 2 is a character boundary; its contract is `PathUtils.CleansePathShape`, `PathUtils.CleanseIsSuffix` and `PathUtils.CleanseUndoesDotSlash` |
| PathUtils.CleansePathAsWritten | src/alt/path/utils/mod.rs:1-8 | `cleanse_path` with the panic of `s[0..2]` when byte 2 is not a character boundary; its contract is `PathUtils.CleansePathAsWrittenPanics` |
| PathUtils.CleansePathAsWrittenPanics | src/alt/path/utils/mod.rs:3 | it panics exactly when byte 2 is a UTF-8 continuation byte, and otherwise returns what `PathUtils.CleansePath` does |
| PathUtils.CleansePathPanicsInsideCharacter | src/alt/path/utils/mod.rs:3 | `aé.rs` panics, where the guarded `PathUtils.CleansePath` returns it unchanged |
| PathUtils.IsCharBoundary | src/alt/path/utils/mod.rs:3 | `str::is_char_boundary`, which the slice `s[0..2]` checks: byte `i` is the end or not a UTF-8 continuation byte; it is used by `PathUtils.CleansePathAsWritten` |
| PathNames.LastComponent | src/alt/path/scoring/mod.rs:65-70 | the last component holds no `/`, ends the path, and is preceded by a `/` when it is not the whole path |
| PathNames.FileName | src/alt/path/scoring/mod.rs:69-70 | `file_name` is the last component unless that is empty or `..` |
| PathNames.StemOf | src/alt/path/scoring/mod.rs:69-70 | the stem is a non-empty prefix of the name that is the whole name, or ends at its last `.` |
| PathNames.FileStem | src/alt/path/scoring/mod.rs:69-70 | a stem exists exactly when a file name does, and it is a non-empty prefix of the name |
| PathNames.Parent | src/alt/path/scoring/mod.rs:76-77 | `parent` is `None` exactly for the empty path and the root; a bare name has the empty parent; a non-empty parent is a prefix of the path |
| PathNames.StemImpliesParent | src/alt/path/scoring/mod.rs:76-84 | a path with a stem always has a parent, so the `_ => 0.0` arm of the parent match is unreachable once stems exist |
| PathNames.StemlessPaths | src/alt/path/scoring/mod.rs:164-182 | `""`, `/`, `..` and `/..` have no stem |
| PathNames.SplitAtLastSlash | src/alt/path/scoring/mod.rs:65-77 | for `dir/name`, the file name is `name` and the parent is `dir`, or `/` when `dir` is empty |
| PathNames.StemAtLastDot | src/alt/path/scoring/mod.rs:69-70 | the stem of `base.ext` is `base` when `ext` holds no dot |
| Scoring.SuffixRun | src/alt/path/scoring/mod.rs:36-46 | a table cell is at most either prefix length |
| Scoring.SuffixRunIsCommonSuffix | src/alt/path/scoring/mod.rs:38-42 | cell `(i, j)` measures a common run of both strings that ends there |
| Scoring.SuffixRunIsMaximal | src/alt/path/scoring/mod.rs:38-42 | that run cannot be extended to the left |
| Scoring.SuffixRunAtLeast | src/alt/path/scoring/mod.rs:38-42 | any common run ending at `(i, j)` is at most the cell there |
| Scoring.RowArg | src/alt/path/scoring/mod.rs:37-46 | the column picked lies within the columns scanned, and is a real column once one has been scanned |
| Scoring.RowArgIsMax | src/alt/path/scoring/mod.rs:37-46 | the picked column's cell is at least every cell of the row scanned so far |
| Scoring.TableArg | src/alt/path/scoring/mod.rs:36-46 | the cell picked lies within the rows and columns scanned |
| Scoring.TableArgIsMax | src/alt/path/scoring/mod.rs:36-46 | the picked cell is at least every cell of the rows scanned so far |
| Scoring.TableMaxIsLongestCommonRun | src/alt/path/scoring/mod.rs:36-50 | the largest table cell is the length of a common run, and no common run is longer |
| Scoring.CommonRunBelowTableMax | src/alt/path/scoring/mod.rs:36-50 | every common run is at most the largest cell |
| Scoring.LcsLength | src/alt/path/scoring/mod.rs:6-51 | some common run has this length and none is longer |
| Scoring.RowMaxStep | src/alt/path/scoring/mod.rs:43-45 | extending a row takes the larger of the old maximum and the new cell |
| Scoring.RowsMaxStep | src/alt/path/scoring/mod.rs:36-48 | adding a row takes the larger of the old maximum and that row's maximum |
| Scoring.LongestCommonSubstringLength | src/alt/path/scoring/mod.rs:6-51 | the table method returns exactly the longest common substring length, 0 when either string is empty |
| Scoring.FillRow | src/alt/path/scoring/mod.rs:37-47 | one outer pass fills row `i` with the longest common suffixes, leaves every other row alone, and updates the running maximum |
| Scoring.LcsSymmetric | src/alt/path/scoring/mod.rs:6-51 | the length is the same with the arguments swapped |
| Scoring.LcsBounded | src/alt/path/scoring/mod.rs:21-23 | the length is at most either length, and 0 when either string is empty |
| Scoring.LcsOfContained | src/alt/path/scoring/mod.rs:6-51 | when `a` occurs in `b` the length is all of `a` |
| Scoring.LcsSelf | src/alt/path/scoring/mod.rs:6-51 | a string shares all of itself with itself |
| Scoring.Ratio | src/alt/path/scoring/mod.rs:60-61 | the product of two fractions lies in `[0, 1]`, is 1 exactly when the run is both lengths, and is positive exactly when the run is |
| Scoring.RatioSymmetric | src/alt/path/scoring/mod.rs:60-61 | the ratio does not depend on the order of the two lengths |
| Scoring.SimilarityRatio | src/alt/path/scoring/mod.rs:53-62 | the ratio lies in `[0, 1]`, is 0 for an empty string, is 1 exactly when both strings are their whole common run, and is positive exactly when they share a byte |
| Scoring.SimilarityRatioSymmetric | src/alt/path/scoring/mod.rs:53-62 | the ratio is symmetric |
| Scoring.SimilarityRatioIsOneIff | src/alt/path/scoring/mod.rs:53-62 | the ratio is 1 exactly for two equal non-empty strings |
| Scoring.SharedByteGivesPositiveRatio | src/alt/path/scoring/mod.rs:53-62 | one shared byte makes the ratio positive |
| Scoring.RatioOfContained | src/alt/path/scoring/mod.rs:53-62 | when `b` occurs in `a` the ratio is `|b|/|a|` |
| Scoring.LcsAtMostOneWithoutCommonPair | src/alt/path/scoring/mod.rs:38-42 | with no common pair of adjacent bytes no run exceeds one byte |
| Scoring.CommonRunOpensWithPair | src/alt/path/scoring/mod.rs:38-42 | a common run of two or more bytes begins with a common pair |
| Scoring.RatioMonotone | src/alt/path/scoring/mod.rs:60-61 | for fixed lengths a longer common run gives a strictly larger ratio |
| Scoring.ParentScore | src/alt/path/scoring/mod.rs:75-84 | both parents give their ratio, neither gives 1, and exactly one gives 0 |
| Scoring.WeightedSum | src/alt/path/scoring/mod.rs:87 | with non-negative weights and scores in `[0, 1]` the sum lies between 0 and the sum of the weights; full scores give that sum and zero scores give 0 |
| Scoring.Score | src/alt/path/scoring/mod.rs:64-91 | the score is 0 when either path has no file stem |
| Scoring.WeightedSumPositive | src/alt/path/scoring/mod.rs:87 | a positive part with a positive weight makes the weighted sum positive |
| Scoring.ScoreOfNamedPaths | src/alt/path/scoring/mod.rs:72-88 | for two paths with stems, both have parents and the score is the weighted sum of the stem ratio and the parent ratio |
| Scoring.ScoreOfFilePaths | src/alt/path/scoring/mod.rs:64-91 | for `dir/base.ext` paths the score weighs the ratio of the bases and the ratio of the directories |
| Scoring.FilePathParts | src/alt/path/scoring/mod.rs:69-77 | `dir/base.ext` has the stem `base` and the parent `dir` |
| Scoring.ScoreSymmetric | src/alt/path/scoring/mod.rs:64-91 | the score does not depend on the order of the two paths |
| Scoring.ScoreBounds | src/alt/path/scoring/mod.rs:64-91 | with non-negative weights the score lies between 0 and the sum of the weights |
| Scoring.ScoreOfSamePath | src/alt/path/scoring/mod.rs:64-91 | a path with a stem and a non-empty parent scores the sum of the weights against itself |
| Scoring.NoSharedByteGivesZeroRatio | src/alt/path/scoring/mod.rs:53-62 | strings without a shared byte have no common run and ratio 0 |
| Scoring.BareNameStem | src/alt/path/scoring/mod.rs:69-77 | a bare name has a stem that is a prefix of it, and the empty parent |
| Scoring.BareNamesWithoutSharedBytes | src/alt/path/scoring/mod.rs:64-91 | two bare names without a shared byte score 0, because the parent ratio of two empty parents is 0 |
| Scoring.ScorePaths | src/alt/path/scoring/mod.rs:93-110 | at most one entry per candidate |
| Scoring.ScoredPath | src/alt/path/scoring/mod.rs:4 | the pair `(f32, String)` of a score and a path, as a datatype with the fields `score` and `path` |
| Scoring.Entry | src/alt/path/scoring/mod.rs:103-106 | the `(score, path)` pair built for one kept candidate; its contract is `Scoring.ScorePathsAt` and `Scoring.ScorePathsEntries` |
| Scoring.ScorePathsAsWritten | src/alt/path/scoring/mod.rs:93-110 | `score_paths` with `cleanse_path` as written: a panic in any candidate's cleansing is a panic of the call; its contract is `Scoring.ScorePathsAsWrittenPanics` |
| Scoring.ScorePathsAsWrittenPanics | src/alt/path/scoring/mod.rs:99-101 | it panics when some candidate's byte 2 is a continuation byte, and otherwise returns what `Scoring.ScorePaths` does |
| Scoring.ScorePathsEntries | src/alt/path/scoring/mod.rs:93-110 | every entry is a cleansed candidate other than the target, paired with its score |
| Scoring.KeptFrom | src/alt/path/scoring/mod.rs:99-102 | the surviving positions from `from` on, increasing: exactly those whose cleansed path differs from the target |
| Scoring.KeptIndices | src/alt/path/scoring/mod.rs:99-102 | the surviving positions, increasing: exactly those whose cleansed path differs from the target |
| Scoring.KeptFromAll | src/alt/path/scoring/mod.rs:99-102 | when every candidate from `from` on survives, the surviving positions are `from`, `from + 1`, ... |
| Scoring.ScorePathsFrom | src/alt/path/scoring/mod.rs:93-110 | scoring a suffix lists, in order, the survivors of that suffix with their scores |
| Scoring.ScorePathsKeepsOrder | src/alt/path/scoring/mod.rs:93-110 | the result lists exactly the surviving candidates, in input order, each with its score |
| Scoring.ScorePathsAt | src/alt/path/scoring/mod.rs:93-110 | position `k` of the result holds the entry of the `k`-th survivor, whose cleansed path is not the target |
| Scoring.ScorePathsHead | src/alt/path/scoring/mod.rs:96-107 | the result for a non-empty list is the first candidate's entry (or nothing, when it cleanses to the target) followed by the result for the rest |
| Scoring.ScorePathsMembers | src/alt/path/scoring/mod.rs:93-110 | a path is in the result exactly when some candidate cleanses to it and it is not the target |
| Scoring.ScorePathsConcat | src/alt/path/scoring/mod.rs:93-110 | scoring a concatenation is concatenating the scorings |
| ScoringExamples.SameBaseScore | src/alt/path/scoring/mod.rs:184-205 | two `dir/base.ext` paths with the same base score `10 + ratio(dirs)` |
| ScoringExamples.SameDirScore | src/alt/path/scoring/mod.rs:184-189 | same directory with bases sharing no byte scores 1 |
| ScoringExamples.FooBarCar | src/alt/path/scoring/mod.rs:186 | `foo/bar/car.ts` against `aaa/ddd/car.ts` scores `10 + ratio(foo/bar, aaa/ddd)` |
| ScoringExamples.PppDddCar | src/alt/path/scoring/mod.rs:194 | `ppp/ddd/car.ts` against `aaa/ddd/car.ts` scores `10 + ratio(ppp/ddd, aaa/ddd)` |
| ScoringExamples.AaaDddCar | src/alt/path/scoring/mod.rs:202 | `aaa/ddd/car.ts` scores 11 against itself |
| ScoringExamples.HooptyCar | src/alt/path/scoring/mod.rs:187 | `aaa/ddd/hoopty.ts` against `aaa/ddd/car.ts` scores 1 |
| ScoringExamples.FooBarAgainstAaaDdd | src/alt/path/scoring/mod.rs:186 | `foo/bar` and `aaa/ddd` share no run longer than one byte |
| ScoringExamples.PppDddAgainstAaaDdd | src/alt/path/scoring/mod.rs:194 | `ppp/ddd` and `aaa/ddd` share a run of at least four bytes |
| ScoringExamples.SevenByteRatios | src/alt/path/scoring/mod.rs:60-61 | for strings of seven bytes the ratio grows with the common run |
| ScoringExamples.SimilarFilesOverSimilarDirs | src/alt/path/scoring/mod.rs:184-189 | a matching file name beats a matching directory |
| ScoringExamples.SimilarDirsWhenFilesMatch | src/alt/path/scoring/mod.rs:191-205 | the identical path beats the one with a similar directory, which beats the one with a dissimilar directory |
| ScoringExamples.SharedDirByteScoresPositive | src/alt/path/scoring/mod.rs:64-91 | a shared byte in the directories of two `dir/base.ext` paths makes the score positive |
| ScoringExamples.FixturePathsAreClean | src/alt/path/scoring/mod.rs:118-122 | the three fixture paths need no cleansing |
| ScoringExamples.ScorePathsOfOne | src/alt/path/scoring/mod.rs:93-110 | a one-entry list gives its entry scored, or nothing when it is the target |
| ScoringExamples.ScorePathsOfThree | src/alt/path/scoring/mod.rs:93-110 | a three-entry list is scored entry by entry |
| ScoringExamples.ScoreThreeDroppingMiddle | src/alt/path/scoring/mod.rs:93-110 | when only the middle of three clean entries is the target, the other two are kept in order |
| ScoringExamples.ScoreThreeKeepingAll | src/alt/path/scoring/mod.rs:93-110 | when none of three clean entries is the target, all three are kept in order |
| ScoringExamples.FooBarAgainstHoopty | src/alt/path/scoring/mod.rs:129 | `foo/bar/car.ts` scores positively against `hoopty/doopty/foopty.ts` |
| ScoringExamples.HomeAwayAgainstHoopty | src/alt/path/scoring/mod.rs:130 | `home/away/lets_play.ts` scores positively against `hoopty/doopty/foopty.ts` |
| ScoringExamples.ScorePathsFiltersSamePath | src/alt/path/scoring/mod.rs:116-131 | the target is dropped, the other two are kept in order, and both scores are positive |
| ScoringExamples.AgainstPersonPlace | src/alt/path/scoring/mod.rs:147-149 | a directory holding `o` scores positively against `person/place/thing.ts` |
| ScoringExamples.FooBarAgainstPerson | src/alt/path/scoring/mod.rs:147 | `foo/bar/car.ts` scores positively against `person/place/thing.ts` |
| ScoringExamples.HooptyAgainstPerson | src/alt/path/scoring/mod.rs:148 | `hoopty/doopty/foopty.ts` scores positively against `person/place/thing.ts` |
| ScoringExamples.HomeAwayAgainstPerson | src/alt/path/scoring/mod.rs:149 | `home/away/lets_play.ts` scores positively against `person/place/thing.ts` |
| ScoringExamples.ScorePathsKeepsOtherPaths | src/alt/path/scoring/mod.rs:133-150 | no candidate is the target, so all three are kept in order, with positive scores |
| ScoringExamples.NoSimilarityScoresZero | src/alt/path/scoring/mod.rs:152-156 | `abc/d` against `xyz/e` scores 0 |
| ScoringExamples.BareNamesScoreZero | src/alt/path/scoring/mod.rs:158-162 | `foo` against `bar` scores 0 |
| ScoringExamples.StemlessPathScoresZero | src/alt/path/scoring/mod.rs:164-182 | `/`, `/..`, `""` and `..` score 0 against any path, on either side |
| ScoringExamples.RatioIsProportionNotSize | src/alt/path/scoring/mod.rs:214-219 | `foobarcar`/`bar` and `abc`/`b` both have ratio one third |
| ScoringExamples.LinearFilePathScore | src/alt/path/scoring/mod.rs:87 | for `dir/base.ext` paths the score is `fw * ratio(bases) + pw * ratio(dirs)` |
| ScoringExamples.RatioOfPrefix | src/alt/path/scoring/mod.rs:53-62 | a non-empty prefix of `lp` bytes of a string of `lw` bytes has ratio `lp/lw` with it |
| ScoringExamples.ScorePathsOfCleanCandidates | src/alt/path/scoring/mod.rs:93-110 | when no candidate needs cleansing or is the target, each candidate is scored in place |
| ScoringExamples.ScorePathsPanicsOnCutCharacter | src/alt/path/scoring/mod.rs:99-101 | with `cleanse_path` as written, a list holding `aé.rs` panics for every target and weights |
| ScoringExamples.SimilarityRatioOfEmpty | src/alt/path/scoring/mod.rs:207-212 | the ratio is 0 when the first, the second or both strings are empty |
| Alt.OrderScoredPaths | src/alt/mod.rs:77-85 | `Less` exactly when the first score is higher, `Greater` exactly when it is lower, `Equal` exactly when they are equal |
| Alt.Ordering | src/alt/mod.rs:3 | `std::cmp::Ordering`, with its three cases `Less`, `Equal` and `Greater` |
| Alt.OrderIsTotalPreorder | src/alt/mod.rs:77-85 | the comparator is antisymmetric and transitive, as `sort_by` needs |
| Alt.WithScore | src/alt/mod.rs:17 | by its definition, the entries of `s` with score `v`, in their order in `s`; its contract states only that there are no more of them than `s` has entries, and membership is `Alt.WithScoreMembers` |
| Alt.WithScoreMembers | src/alt/mod.rs:17 | a leading entry with score `v` heads that filter, and the filter holds only entries with score `v` |
| Alt.WithScoreConcat | src/alt/mod.rs:17 | filtering distributes over concatenation |
| Alt.Insert | src/alt/mod.rs:17 | one insertion step adds one entry |
| Alt.InsertPermutes | src/alt/mod.rs:17 | insertion adds exactly the inserted entry |
| Alt.StableSortByScore | src/alt/mod.rs:17 | the functional stable sort keeps the length |
| Alt.StableSortPermutes | src/alt/mod.rs:17 | the sort is a permutation |
| Alt.InsertKeepsSorted | src/alt/mod.rs:17 | inserting into a descending sequence keeps it descending |
| Alt.InsertKeepsTies | src/alt/mod.rs:17 | the inserted entry lands after every entry with the same score |
| Alt.StableSortIsSorted | src/alt/mod.rs:17 | the sort orders scores from highest to lowest |
| Alt.StableSortKeepsTies | src/alt/mod.rs:17 | entries with equal scores keep their input order (stability) |
| Alt.StableSortIsUnique | src/alt/mod.rs:17 | two descending sequences that order every score's entries alike are equal, so any stable sort gives the same result |
| Alt.StableSortIsArrangement | src/alt/mod.rs:17 | any descending arrangement that keeps ties in input order is the stable sort |
| Alt.WithScoreOfDistinct | src/alt/mod.rs:17 | with distinct scores, each score selects at most one entry |
| Alt.SortOfDistinctScores | src/alt/mod.rs:17 | with distinct scores the sort is the one strictly descending permutation |
| Alt.TruncateScoredPaths | src/alt/mod.rs:87-92 | length 0 keeps everything; any other length keeps the first `len` entries, or all of them when there are fewer |
| Alt.SortScoredPaths | src/alt/mod.rs:17 | the in-place insertion sort leaves the array equal to the stable sort of its old contents |
| Alt.InsertIntoPrefix | src/alt/mod.rs:17 | one pass inserts `a[i]` into the sorted prefix and leaves the rest of the array alone |
| Alt.InsertAt | src/alt/mod.rs:17 | the entry lands right behind the last entry that does not sort after it, every later entry sorting after it |
| Alt.SortAndTruncate | src/alt/mod.rs:17-19 | the candidates are sorted, then truncated |
| Alt.FindAlt | src/alt/mod.rs:7-22 | `find_alt` returns the scored candidates, stably sorted, then truncated |
| Alt.Alternates | src/alt/mod.rs:7-22 | what `find_alt` returns: `score_paths`, stably sorted, then truncated; its contract is `Alt.AlternatesUntruncated`, `Alt.AlternatesTruncated`, `Alt.AlternatesAreScoredCandidates` and `Alt.AlternatesMembers` |
| Alt.AlternatesUntruncated | src/alt/mod.rs:7-22 | untruncated, the result is a permutation of the scored candidates, sorted descending, with ties in input order |
| Alt.AlternatesTruncated | src/alt/mod.rs:7-22 | a positive truncation length keeps a prefix of the untruncated result of length `min(n, all)` |
| Alt.AlternatesAreScoredCandidates | src/alt/mod.rs:7-22 | every returned entry is a path other than the target, paired with its score against the target |
| Alt.AlternatesMembers | src/alt/mod.rs:7-22 | untruncated, a path is returned exactly when some candidate cleanses to it and it is not the target |
| Alt.ChunkSize | src/alt/mod.rs:41 | the chunk size is 0 exactly when the list is empty, and otherwise `size * p` covers the list |
| Alt.ChunkSizeCovers | src/alt/mod.rs:41 | `len <= (len / p + len % p) * p` |
| Alt.Chunks | src/alt/mod.rs:45 | `chunks(size)` gives non-empty pieces of at most `size` |
| Alt.ConcatAppend | src/alt/mod.rs:68 | concatenation of one more piece appends it |
| Alt.ChunksConcat | src/alt/mod.rs:45-68 | concatenating the chunks gives the list back |
| Alt.ChunkCount | src/alt/mod.rs:45 | a list of at most `size * k` entries gives at most `k` chunks |
| Alt.ChunksFitThreads | src/alt/mod.rs:41-45 | a non-empty list is cut into at most `p` chunks, one per available thread |
| Alt.EmptyListHasNoChunkSize | src/alt/mod.rs:41 | the chunk size of an empty list is 0, the size on which `chunks` panics |
| Alt.ScoreChunks | src/alt/mod.rs:45-68 | scoring chunk by chunk and concatenating equals scoring the concatenated chunks |
| Alt.FindAltWithThreads | src/alt/mod.rs:29-75 | without parallelism the result is `NoAvailableParallelism`; an empty list panics; otherwise the result is exactly `find_alt`'s |
| Alt.FindAltWithThreadsError | src/alt/mod.rs:24-27 | the error enum, with its one case `NoAvailableParallelism` |
| Alt.ScoreInChunks | src/alt/mod.rs:45-68 | the chunk loop returns exactly `score_paths` of the whole list |
| Alt.GuardedChunkSize | src/alt/mod.rs:41 | a chunk size that is never 0 and agrees with the source's size on non-empty lists |
| Alt.FindAltWithThreadsGuarded | src/alt/mod.rs:29-75 | the intended behaviour: without parallelism `NoAvailableParallelism`, otherwise exactly `find_alt`'s result, including for the empty list |
| AltExamples.WalletPathsAsWritten | src/alt/mod.rs:160-168 | the fixture paths, built from their pieces, are the literals of the tests |
| AltExamples.DatabaseDir | src/alt/mod.rs:161 | the directory ratio of `src/database/nft-wallet` against `src/models` is at most 0.157 |
| AltExamples.ConcernsDir | src/alt/mod.rs:164 | the directory ratio of `src/concerns/nft/models` against `src/models` lies in `[0.213, 0.435]` |
| AltExamples.MockesDir | src/alt/mod.rs:163 | the directory ratio of `src/concerns/nft/models/mockes` against `src/models` lies in `[0.163, 0.214]` |
| AltExamples.MocksDir | src/alt/mod.rs:162 | the directory ratio of `src/models/mocks` against `src/models` is 10/16 |
| AltExamples.SpecStem | src/alt/mod.rs:161 | the stem ratio of `nft-wallet.repository.spec` against `nft-wallet` is 10/26 |
| AltExamples.MocksStem | src/alt/mod.rs:162 | the stem ratio of `nft-wallet.mocks` against `nft-wallet` is 10/16 |
| AltExamples.RepositoryStem | src/alt/mod.rs:165 | the stem ratio of `nft-wallet.repository` against `nft-wallet` is 10/21 |
| AltExamples.SameStem | src/alt/mod.rs:164 | the stem ratio of `nft-wallet` against itself is 1 |
| AltExamples.Candidate | src/alt/mod.rs:167-168 | a candidate `dir/stem.ts` scores `fw * ratio(stems) + pw * ratio(dirs)` against the target |
| AltExamples.WalletScores | src/alt/mod.rs:160-168 | each of the five candidates scores as that weighted sum |
| AltExamples.WalletRatios | src/alt/mod.rs:160-168 | the stem ratios and directory bounds of the five candidates |
| AltExamples.ScoreOrder | src/alt/mod.rs:169-173 | five scores that are such weighted sums of ratios so bounded are strictly ordered, in one order per pair of weights |
| AltExamples.FileWeightedScores | src/alt/mod.rs:169-173 | at weights 10 and 1 the scores are strictly ordered: concerns/nft/models, models/mocks, mockes, repository, repository.spec |
| AltExamples.PathWeightedScores | src/alt/mod.rs:271-295 | at weights 1 and 10 the scores are strictly ordered: models/mocks, concerns/nft/models, mockes, repository, repository.spec |
| AltExamples.WeightedScores | src/alt/mod.rs:158-295 | both strict score orders, one per pair of weights |
| AltExamples.WalletPathsAreClean | src/alt/mod.rs:160-168 | the target and the candidates need no cleansing, and no candidate is the target |
| AltExamples.Ranked31240 | src/alt/mod.rs:175-185 | at the test weights, the untruncated result is candidates 3, 1, 2, 4, 0 with their scores |
| AltExamples.Ranked13240 | src/alt/mod.rs:282-294 | with the larger path weight, the result is candidates 1, 3, 2, 4, 0 with their scores |
| AltExamples.Sort31240 | src/alt/mod.rs:17 | five entries with those strict score orders sort to positions 3, 1, 2, 4, 0 |
| AltExamples.Sort13240 | src/alt/mod.rs:17 | five entries with those strict score orders sort to positions 1, 3, 2, 4, 0 |
| AltExamples.FindAltSortsByScore | src/alt/mod.rs:158-186 | `find_alt` with truncation 0 returns the five candidates in the order the test asserts: concerns/nft/models, models/mocks, mockes, repository, repository.spec; `src/alt/mod.rs:241-269` asserts the same result, since a truncation length of 0 keeps all five |
| AltExamples.FindAltDropsFullMatch | src/alt/mod.rs:188-213 | with the target itself among the candidates, it is dropped and the other five come out in the same order |
| AltExamples.FindAltTruncates | src/alt/mod.rs:215-239 | truncation length 3 returns the best three in the order the test asserts |
| AltExamples.FindAltWithLargerPathWeight | src/alt/mod.rs:271-295 | with weights 1 and 10, `models/mocks` and `concerns/nft/models` change places |
| AltExamples.TruncateWithZeroLen | src/alt/mod.rs:98-111 | truncating the five scored paths with length 0 keeps all five |
| AltExamples.TruncateWithNonZeroLen | src/alt/mod.rs:113-126 | truncating them with length 3 keeps three of them, the first three |
| AltExamples.OrderWithALarger | src/alt/mod.rs:128-136 | scores 0.3 against 0.2 give `Less`, so the larger score sorts first |
| AltExamples.OrderWithASmaller | src/alt/mod.rs:138-146 | scores 0.2 against 0.3 give `Greater` |
| AltExamples.OrderWithAAndBEqual | src/alt/mod.rs:148-156 | scores 0.3 against 0.3 give `Equal`, whatever the paths |
| Classification.TestsDirAgrees | src/alt/path/classification/mod.rs:7 | the scan for `\w*Tests/` finds a word prefix ending in `Tests` followed by `/` exactly when one exists |
| Classification.WordDirsExtend | src/alt/path/classification/mod.rs:7 | appending a non-empty word directory and its slash keeps `(\w+/)+` |
| Classification.NestedAgrees | src/alt/path/classification/mod.rs:7 | the directory scan succeeds exactly when some prefix of word directories is followed by `spec/` or `test/` |
| Classification.DottedAgrees | src/alt/path/classification/mod.rs:7 | checking at the last `.` decides the anchored `.+\.(spec|test)\.\w+$` alternative in both directions |
| Classification.IsTestFileMatchesPattern | src/alt/path/classification/mod.rs:5-10 | `is_test_file` holds exactly when the path lies in the language of the pattern |
| Classification.IsTestFile | src/alt/path/classification/mod.rs:5-10 | `is_test_file`, as a scan over the path; its contract is `Classification.IsTestFileMatchesPattern` |
| Classification.MatchesTestPattern | src/alt/path/classification/mod.rs:7 | the language of the pattern: some one of its three alternatives matches at the start |
| Classification.StartsWithTestRoot | src/alt/path/classification/mod.rs:7 | the scan of the fixed roots of the first alternative: `features/step_definitions/`, `test/`, `spec/`, `tests/`, `src/test/`; its contract is `Classification.IsTestFileMatchesPattern` |
| Classification.FirstDirEndsInTests | src/alt/path/classification/mod.rs:7 | the scan of `\w*Tests/`; its contract is `Classification.TestsDirAgrees` |
| Classification.DirsThenSpecOrTest | src/alt/path/classification/mod.rs:7 | the scan of the second alternative, `(\w+/)+spec/` or `(\w+/)+test/`; its contract is `Classification.NestedAgrees` |
| Classification.HasDottedTestSuffix | src/alt/path/classification/mod.rs:7 | the scan of the third alternative, `.+\.spec\.\w+` or `.+\.test\.\w+` up to the end; its contract is `Classification.DottedAgrees` |
| Classification.RegexRootOrTestsDir | src/alt/path/classification/mod.rs:7 | the language of the first alternative: a fixed root, or word characters followed by `Tests/` |
| Classification.RegexNestedSpecOrTest | src/alt/path/classification/mod.rs:7 | the language of the second alternative: some prefix of word directories followed by `spec/` or `test/` |
| Classification.RegexDottedSuffix | src/alt/path/classification/mod.rs:7 | the language of the third alternative: some `.` followed only by word characters, with `.spec` or `.test` before it and newline-free bytes before that |
| Classification.EmptyPathIsNotTest | src/alt/path/classification/mod.rs:5-10 | the empty path is not a test file |
| ClassificationExamples.StartsWithDir | src/alt/path/classification/mod.rs:7 | below word directories, one path opens with another exactly when their first names agree and the rests do |
| ClassificationExamples.TestRootOfDirPath | src/alt/path/classification/mod.rs:7 | for word directories, the fixed-root part matches exactly when the directories open with `test`, `spec`, `tests`, `features/step_definitions` or `src/test` |
| ClassificationExamples.FirstDirOfDirPath | src/alt/path/classification/mod.rs:7 | the `\w*Tests/` part matches exactly when the first directory ends in `Tests` |
| ClassificationExamples.NestedOfDirPath | src/alt/path/classification/mod.rs:7 | the nested part matches exactly when a `spec` or `test` directory lies below another directory |
| ClassificationExamples.DottedOfDirPath | src/alt/path/classification/mod.rs:7 | the dotted part matches exactly when the extension is word characters and the stem ends in `.spec` or `.test` with a byte before it |
| ClassificationExamples.IsTestFileOfDirPath | src/alt/path/classification/mod.rs:5-10 | for word directories and `stem.ext`, a path is a test file exactly when one of those four conditions holds |
| Alteration.InListIsIn | src/alt/path/alteration/mod.rs:6 | the unfolded membership test is sequence membership |
| Alteration.MarkerListShaped | src/alt/path/alteration/mod.rs:6 | each marker alternative is 4 to 10 word characters and starts with `_`, `T`, `U` or `S` |
| Alteration.LeftmostFirstIsUnique | src/alt/path/alteration/mod.rs:6 | at most one match fits the engine's leftmost-first priorities |
| Alteration.ParseIsSegment | src/alt/path/alteration/mod.rs:6 | every way the pattern matches a text spans `\w+` or `\w+\.\w+` |
| Alteration.Parse | src/alt/path/alteration/mod.rs:6 | one way the pattern matches a whole text: optional `test_`, a word core, an optional marker and an optional extension |
| Alteration.LeftmostFirst | src/alt/path/alteration/mod.rs:6 | the match the engine reports: the leftmost start, `test_` taken whenever it can be, and the shortest core |
| Alteration.Markers | src/alt/path/alteration/mod.rs:6 | the twelve marker alternatives, in the order the pattern tries them; their shape is `Alteration.MarkerListShaped` |
| Alteration.TestPrefixLength | src/alt/path/alteration/mod.rs:6 | the greedy `(test_)?`: 5 when a `test_` is followed by more text, else 0; its contract is `Alteration.TestPrefixIsGreedy` |
| Alteration.DropTestPrefix | src/alt/path/alteration/mod.rs:6 | the text after that prefix, where the lazy core is found; what it yields is stated by `Alteration.ChosenCoreParses` and `Alteration.StripTestWordsDropsTestPrefix` |
| Alteration.SegmentEndIsWordPrefix | src/alt/path/alteration/mod.rs:6 | the split before the extension is the longest word prefix |
| Alteration.SegmentEnd | src/alt/path/alteration/mod.rs:6 | decides whether the pattern can match the whole text, and where the extension starts |
| Alteration.FirstMatchStart | src/alt/path/alteration/mod.rs:6-7 | the first start at which the pattern can match, with no possible start before it |
| Alteration.ShortestCore | src/alt/path/alteration/mod.rs:6 | the lazy `\w+?` core: the first cut that leaves a marker or nothing behind it |
| Alteration.MarkerCut | src/alt/path/alteration/mod.rs:6 | the captured core is a non-empty prefix of the word, and what follows it is a marker or nothing |
| Alteration.MarkerCutIsLongest | src/alt/path/alteration/mod.rs:6 | no longer marker ends the word and still leaves a core |
| Alteration.CoreEnd | src/alt/path/alteration/mod.rs:6 | the core ends after the optional `test_` and before the end of the word |
| Alteration.FindMatch | src/alt/path/alteration/mod.rs:6-7 | a found match lies inside the text and has a non-empty core |
| Alteration.StripTestWords | src/alt/path/alteration/mod.rs:5-8 | the result is never longer than the input |
| Alteration.NoParseBeforeFirstStart | src/alt/path/alteration/mod.rs:6-7 | no match starts before the first start the scan finds |
| Alteration.ChosenCoreParses | src/alt/path/alteration/mod.rs:6 | the chosen `test_` choice and core end give a match |
| Alteration.TestPrefixIsGreedy | src/alt/path/alteration/mod.rs:6 | whenever some match takes `test_`, the chosen match takes it |
| Alteration.CoreIsLazy | src/alt/path/alteration/mod.rs:6 | no match with the chosen `test_` choice has a shorter core |
| Alteration.FindMatchIsLeftmostFirst | src/alt/path/alteration/mod.rs:6-7 | the scan finds no match exactly when the pattern matches nowhere, and otherwise finds exactly the leftmost-first match |
| Alteration.StripTestWordsReplacesMatch | src/alt/path/alteration/mod.rs:5-8 | without a match the name is unchanged; otherwise the name up to the match, followed by the match's core `$p` |
| Alteration.WholeNameMatches | src/alt/path/alteration/mod.rs:6 | a name `w` or `w.ext` with word-only parts matches as a whole, from its start |
| Alteration.StripMatchFromStart | src/alt/path/alteration/mod.rs:7 | a match from the start is replaced by the marker cut of the word part |
| Alteration.StripTestWordsOfFileName | src/alt/path/alteration/mod.rs:5-8 | `w.ext` becomes `w` without a leading `test_` and without its longest marker |
| Alteration.StripTestWordsIsPieceOfName | src/alt/path/alteration/mod.rs:5-8 | the result for such a name is a non-empty piece of `w` |
| Alteration.MarkerCutWithoutMarker | src/alt/path/alteration/mod.rs:6 | a word that ends in no marker is its own core |
| Alteration.StripTestWordsWithoutMarker | src/alt/path/alteration/mod.rs:5-8 | a name without `test_` and without a marker loses only its extension |
| Alteration.StripTestWordsDropsTestPrefix | src/alt/path/alteration/mod.rs:6 | a leading `test_` is dropped, then the longest marker of what is left |
| Alteration.MarkerCutOfMarked | src/alt/path/alteration/mod.rs:6 | `head + tail + marker` cuts to `head + tail` when `tail` cannot start a marker and reaches far enough back |
| AlterationExamples.StripsMarker | src/alt/path/alteration/mod.rs:5-8 | `core + marker + .ext` becomes `core` under those conditions |
| AlterationExamples.GroovySpec | src/alt/path/alteration/mod.rs:17-20 | `VehicleAttributesVehicleSpec.groovy` becomes `VehicleAttributesVehicle` |
| AlterationExamples.GroovySpecWords | src/alt/path/alteration/mod.rs:18 | proof aid for the fixture on that line: the pieces of `VehicleAttributesVehicleSpec.groovy` are word characters and its tail shows no marker's first byte |
| AlterationExamples.SwiftXCTest | src/alt/path/alteration/mod.rs:25-28 | `VehicleAttributesVehicleTests.swift` becomes `VehicleAttributesVehicle` |
| AlterationExamples.SwiftVehicleWords | src/alt/path/alteration/mod.rs:26-46 | proof aid for the four Swift fixtures at lines 26, 32, 40 and 46: the pieces of `VehicleAttributesVehicle` and the extension `swift` are word characters and its tail shows no marker's first byte |
| AlterationExamples.SwiftXCUITest | src/alt/path/alteration/mod.rs:31-34 | `VehicleAttributesVehicleUITests.swift` becomes `VehicleAttributesVehicle` |
| AlterationExamples.SwiftQuick | src/alt/path/alteration/mod.rs:39-42 | `VehicleAttributesVehicleSpecs.swift` becomes `VehicleAttributesVehicle` |
| AlterationExamples.SwiftQuickUI | src/alt/path/alteration/mod.rs:45-48 | `VehicleAttributesVehicleUISpecs.swift` becomes `VehicleAttributesVehicle` |
| AlterationExamples.RubyRSpec | src/alt/path/alteration/mod.rs:53-56 | `create_spec.rb` becomes `create` |
| AlterationExamples.RubyRSpecWords | src/alt/path/alteration/mod.rs:54 | proof aid for the fixture on that line: the pieces of `create_spec.rb` are word characters and its tail shows no marker's first byte |
| AlterationExamples.RakeRSpec | src/alt/path/alteration/mod.rs:61-64 | `foo_rake_spec.rb` becomes `foo` |
| AlterationExamples.RakeFooWords | src/alt/path/alteration/mod.rs:62-86 | proof aid for the two Rake fixtures at lines 62 and 86: the pieces of `foo` and the extension `rb` are word characters and its tail shows no marker's first byte |
| AlterationExamples.RubyCucumber | src/alt/path/alteration/mod.rs:69-72 | `project_management_steps.rb` becomes `project_management` |
| AlterationExamples.RubyCucumberWords | src/alt/path/alteration/mod.rs:70 | proof aid for the fixture on that line: the pieces of `project_management_steps.rb` are word characters and its tail shows no marker's first byte |
| AlterationExamples.RubyMinitest | src/alt/path/alteration/mod.rs:77-80 | `tasks_controller_test.rb` becomes `tasks_controller` |
| AlterationExamples.RubyMinitestWords | src/alt/path/alteration/mod.rs:78 | proof aid for the fixture on that line: the pieces of `tasks_controller_test.rb` are word characters and its tail shows no marker's first byte |
| AlterationExamples.RakeMinitest | src/alt/path/alteration/mod.rs:85-88 | `foo_rake_test.rb` becomes `foo` |
| AlterationExamples.ElixirExUnit | src/alt/path/alteration/mod.rs:93-96 | `supervisor_test.exs` becomes `supervisor` |
| AlterationExamples.ElixirExUnitWords | src/alt/path/alteration/mod.rs:94 | proof aid for the fixture on that line: the pieces of `supervisor_test.exs` are word characters and its tail shows no marker's first byte |
| AlterationExamples.JasmineSpec | src/alt/path/alteration/mod.rs:101-104 | `jacked_spec.js` becomes `jacked` |
| AlterationExamples.JasmineSpecWords | src/alt/path/alteration/mod.rs:102 | proof aid for the fixture on that line: the pieces of `jacked_spec.js` are word characters and its tail shows no marker's first byte |
| AlterationExamples.PythonTest | src/alt/path/alteration/mod.rs:109-112 | `test_toaster.py` becomes `toaster` |
| AlterationExamples.PythonTestWords | src/alt/path/alteration/mod.rs:110 | proof aid for the fixture on that line: the pieces of `test_toaster.py` are word characters and its tail shows no marker's first byte |
| AlterationExamples.JUnitTest | src/alt/path/alteration/mod.rs:117-120 | `SomethingTest.java` becomes `Something` |
| AlterationExamples.JUnitTestWords | src/alt/path/alteration/mod.rs:118 | proof aid for the fixture on that line: the pieces of `SomethingTest.java` are word characters and its tail shows no marker's first byte |
| AlterationExamples.ScalaTest | src/alt/path/alteration/mod.rs:125-128 | `SomethingTest.scala` becomes `Something` |
| AlterationExamples.ScalaSomethingWords | src/alt/path/alteration/mod.rs:126-138 | proof aid for the three Scala fixtures at lines 126, 132 and 138: the pieces of `Something` and the extension `scala` are word characters and its tail shows no marker's first byte |
| AlterationExamples.ScalaSpec | src/alt/path/alteration/mod.rs:131-134 | `SomethingSpec.scala` becomes `Something` |
| AlterationExamples.ScalaSuite | src/alt/path/alteration/mod.rs:137-140 | `SomethingSuite.scala` becomes `Something` |
| ClassificationExamples.DetectsSwiftXctestFiles | src/alt/path/classification/mod.rs:19-22 | `AutomotiveTests/Vehicles/VehicleAttributesVehicleTests.swift` is a test file |
| ClassificationExamples.DetectsSwiftXcuiFiles | src/alt/path/classification/mod.rs:25-28 | `AutomotiveUITests/Vehicles/VehicleAttributesVehicleUITests.swift` is a test file |
| ClassificationExamples.DetectsSwiftQuickFiles | src/alt/path/classification/mod.rs:31-34 | `AutomotiveTests/Vehicles/VehicleAttributesVehicleSpec.swift` is a test file |
| ClassificationExamples.DetectsSwiftQuickUiFiles | src/alt/path/classification/mod.rs:37-40 | `AutomotiveUITests/Vehicles/VehicleAttributesVehicleUISpec.swift` is a test file |
| ClassificationExamples.DoesNotDetectSwiftImplementationFiles | src/alt/path/classification/mod.rs:43-46 | `Automotive/Vehicles/VehicleAttributesVehicle.swift` is not a test file |
| ClassificationExamples.DetectsRubyGemTestFiles | src/alt/path/classification/mod.rs:51-54 | `spec/foo_spec.rb` is a test file; `src/alt/path/classification/mod.rs:191-194` repeats the same case |
| ClassificationExamples.DetectsRubyGemTestFilesUnderLib | src/alt/path/classification/mod.rs:57-60 | `spec/lib/foo_spec.rb` is a test file |
| ClassificationExamples.DoesNotDetectRubyGemImplementationFiles | src/alt/path/classification/mod.rs:63-66 | `lib/foo.rb` is not a test file; `src/alt/path/classification/mod.rs:109-112` repeats the same case |
| ClassificationExamples.DetectsRakeTestFiles | src/alt/path/classification/mod.rs:71-74 | `spec/lib/tasks/bar/foo_rake_spec.rb` is a test file |
| ClassificationExamples.DoesNotDetectRakeImplementationFiles | src/alt/path/classification/mod.rs:77-80 | `lib/tasks/bar/foo.rake` is not a test file |
| ClassificationExamples.DoesNotDetectRailsControllerImplementationFiles | src/alt/path/classification/mod.rs:85-88 | `app/controllers/tasks_controller.rb` is not a test file |
| ClassificationExamples.DoesNotDetectRailsModelImplementationFiles | src/alt/path/classification/mod.rs:91-94 | `app/models/task.rb` is not a test file |
| ClassificationExamples.DoesNotDetectRailsHelperImplementationFiles | src/alt/path/classification/mod.rs:97-100 | `app/helpers/hoopty.rb` is not a test file |
| ClassificationExamples.DoesNotDetectRailsMailerImplementationFiles | src/alt/path/classification/mod.rs:103-106 | `app/mailers/hoopty_mailer.rb` is not a test file |
| ClassificationExamples.DoesNotDetectRailsRakeImplementationFiles | src/alt/path/classification/mod.rs:115-118 | `bar/foo.rake` is not a test file |
| ClassificationExamples.DetectsMinitestControllerTestFiles | src/alt/path/classification/mod.rs:123-126 | `test/controllers/tasks_controller_test.rb` is a test file |
| ClassificationExamples.DetectsMinitestModelTestFiles | src/alt/path/classification/mod.rs:129-132 | `test/models/task_test.rb` is a test file |
| ClassificationExamples.DetectsMinitestHelperTestFiles | src/alt/path/classification/mod.rs:135-138 | `test/helpers/hoopty_test.rb` is a test file |
| ClassificationExamples.DetectsMinitestMailerTestFiles | src/alt/path/classification/mod.rs:141-144 | `test/mailers/hoopty_mailer_test.rb` is a test file |
| ClassificationExamples.DetectsMinitestLibTestFiles | src/alt/path/classification/mod.rs:147-150 | `test/foo_test.rb` is a test file |
| ClassificationExamples.DetectsMinitestRakeTestFiles | src/alt/path/classification/mod.rs:153-156 | `test/bar/foo_rake_test.rb` is a test file |
| ClassificationExamples.DetectsRailsMonorepoTestFiles | src/alt/path/classification/mod.rs:159-162 | `components/module1/test/app/controllers/file_controller_test.rb` is a test file |
| ClassificationExamples.DetectsRspecControllerTestFiles | src/alt/path/classification/mod.rs:167-170 | `spec/controllers/tasks_controller_spec.rb` is a test file |
| ClassificationExamples.DetectsRspecModelTestFiles | src/alt/path/classification/mod.rs:173-176 | `spec/models/task_spec.rb` is a test file |
| ClassificationExamples.DetectsRspecHelperTestFiles | src/alt/path/classification/mod.rs:179-182 | `spec/helpers/hoopty_spec.rb` is a test file |
| ClassificationExamples.DetectsRspecMailerTestFiles | src/alt/path/classification/mod.rs:185-188 | `spec/mailers/hoopty_mailer_spec.rb` is a test file |
| ClassificationExamples.DetectsRspecRakeTestFiles | src/alt/path/classification/mod.rs:197-200 | `spec/bar/foo_rake_spec.rb` is a test file |
| ClassificationExamples.DetectsRailsMonorepoSpecFiles | src/alt/path/classification/mod.rs:203-206 | `components/module1/spec/app/controllers/file_controller_spec.rb` is a test file |
| ClassificationExamples.DetectsRailsMonorepoImplementationFiles | src/alt/path/classification/mod.rs:209-212 | `components/module1/app/controller/file_controller.rb` is not a test file |
| ClassificationExamples.DoesNotDetectHanamiAppControllerImplementationFiles | src/alt/path/classification/mod.rs:217-220 | `app/controllers/users/create.rb` is not a test file |
| ClassificationExamples.DoesNotDetectHanamiAppViewImplementationFiles | src/alt/path/classification/mod.rs:223-226 | `app/views/users/create.rb` is not a test file |
| ClassificationExamples.DoesNotDetectHanamiAppLibImplementationFiles | src/alt/path/classification/mod.rs:229-232 | `lib/foo/bar/car/my_lib.rb` is not a test file; `src/alt/path/classification/mod.rs:281-284` repeats the same case |
| ClassificationExamples.DoesNotDetectHanamiAppGeneralImplementationFiles | src/alt/path/classification/mod.rs:235-238 | `app/fulfiller.rb` is not a test file |
| ClassificationExamples.DetectsHanamiAppRspecControllerTestFiles | src/alt/path/classification/mod.rs:243-246 | `spec/controllers/users/create_spec.rb` is a test file |
| ClassificationExamples.DetectsHanamiAppRspecViewTestFiles | src/alt/path/classification/mod.rs:249-252 | `spec/views/users/create_spec.rb` is a test file |
| ClassificationExamples.DetectsHanamiAppRspecLibTestFiles | src/alt/path/classification/mod.rs:255-258 | `spec/foo/bar/car/my_lib_spec.rb` is a test file; `src/alt/path/classification/mod.rs:307-310` repeats the same case |
| ClassificationExamples.DetectsHanamiAppRspecGeneralTestFiles | src/alt/path/classification/mod.rs:261-264 | `spec/fulfiller_spec.rb` is a test file |
| ClassificationExamples.DoesNotDetectHanamiContainerControllerImplementationFiles | src/alt/path/classification/mod.rs:269-272 | `apps/web/controllers/users/create.rb` is not a test file |
| ClassificationExamples.DoesNotDetectHanamiContainerViewImplementationFiles | src/alt/path/classification/mod.rs:275-278 | `apps/web/views/users/create.rb` is not a test file |
| ClassificationExamples.DoesNotDetectHanamiContainerGeneralImplementationFiles | src/alt/path/classification/mod.rs:287-290 | `apps/offer_service/fulfiller.rb` is not a test file |
| ClassificationExamples.DetectsHanamiContainerRspecControllerTestFiles | src/alt/path/classification/mod.rs:295-298 | `spec/web/controllers/users/create_spec.rb` is a test file |
| ClassificationExamples.DetectsHanamiContainerRspecViewTestFiles | src/alt/path/classification/mod.rs:301-304 | `spec/web/views/users/create_spec.rb` is a test file |
| ClassificationExamples.DetectsHanamiContainerRspecGeneralTestFiles | src/alt/path/classification/mod.rs:313-316 | `spec/offer_service/fulfiller_spec.rb` is a test file |
| ClassificationExamples.DetectsElixerExunitFiles | src/alt/path/classification/mod.rs:321-324 | `test/lib/my_awesome_app/supervisor_test.exs` is a test file |
| ClassificationExamples.DoesNotDetectElixerImplementationFiles | src/alt/path/classification/mod.rs:327-330 | `lib/my_awesome_app/supervisor.ex` is not a test file |
| ClassificationExamples.DetectsJsJasmineTestFiles | src/alt/path/classification/mod.rs:335-338 | `spec/foo/bar/jacked_spec.js` is a test file |
| ClassificationExamples.DetectsJsMochaTestFiles | src/alt/path/classification/mod.rs:343-346 | `test/foo/bar/jacked.test.js` is a test file |
| ClassificationExamples.DoesNotDetectJsImplementationFiles | src/alt/path/classification/mod.rs:349-352 | `foo/bar/jacked.js` is not a test file |
| ClassificationExamples.DetectsJsMochaTestFilesInSrcDirectory | src/alt/path/classification/mod.rs:355-358 | `src/foo/bar/jacked.test.js` is a test file |
| ClassificationExamples.DetectsJsMochaSpecFilesInSrcDirectory | src/alt/path/classification/mod.rs:361-364 | `src/foo/bar/jacked.spec.js` is a test file |
| ClassificationExamples.DetectsPythonTestFiles | src/alt/path/classification/mod.rs:368-371 | `test/test_toaster.py` is a test file |
| ClassificationExamples.DoesNotDetectPythonImplementationFiles | src/alt/path/classification/mod.rs:374-377 | `toaster.py` is not a test file |
| ClassificationExamples.DetectsCucumberStepDefinitionFiles | src/alt/path/classification/mod.rs:382-385 | `features/step_definitions/project_management_steps.rb` is a test file |
| ClassificationExamples.DoesNotDetectCucumberFeatureFiles | src/alt/path/classification/mod.rs:388-391 | `features/project_management.feature` is not a test file |
| ClassificationExamples.DetectsJavaMavenJunitTestFiles | src/alt/path/classification/mod.rs:396-399 | `src/test/java/com/example/SomethingTest.java` is a test file |
| ClassificationExamples.DoesNotDetectJavaImplementationFiles | src/alt/path/classification/mod.rs:402-405 | `src/main/java/com/example/Something.java` is not a test file |
| ClassificationExamples.DetectsScalaScalatestTestFiles | src/alt/path/classification/mod.rs:410-413 | `src/test/scala/com/example/SomethingTest.scala` is a test file |
| ClassificationExamples.DetectsScalaScalatestSpecFiles | src/alt/path/classification/mod.rs:416-419 | `src/test/scala/com/example/SomethingSpec.scala` is a test file |
| ClassificationExamples.DetectsScalaScalatestSuiteFiles | src/alt/path/classification/mod.rs:422-425 | `src/test/scala/com/example/SomethingSuite.scala` is a test file |
| ClassificationExamples.DoesNotDetectScalaImplementationFiles | src/alt/path/classification/mod.rs:428-431 | `src/main/scala/com/example/Something.scala` is not a test file |

Members without a row are of two kinds. Some are glue lemmas that only help the solver, for example `AltExamples.Piece0` to `AltExamples.Piece4`, `AltExamples.FiveEntries`, `AltExamples.TruncatedToThree`, `Alt.ScaleAtMostOne`, `Strings.ConcatAssociative`, `Scoring.Scaled`, `Scoring.ScaledSum`, `Scoring.FractionGrows`, `Scoring.WholeFraction`, `ScoringExamples.NoTriple`, `ScoringExamples.CommonRunCarriesTriple`, `ScoringExamples.RatioBetween`, `Classification.NestedSound`, `Classification.NestedComplete`, `PathNames.RootHasNoStem`, `PathNames.UpHasNoStem`, `PathNames.RootUpHasNoStem`, and the `OpensWith*` and `RailsMonorepo*` lemmas of `ClassificationExamples`. Others are small definitions used inside a member that has a row and whose contract covers them, for example the predicates and functions of `Strings`, `Alteration.MarkerOrEmpty` and `Scoring.Entries`. The `*Words` rows above are proof aids like the glue lemmas, given rows because each belongs to one fixture, or to fixtures that share its pieces.

## Left out

- The command-line front end `src/main.rs` is not modelled: argument parsing (a `PATH` argument and the `-f/--file`, `-d` and `-v` options) and printing them. The `--file` option is declared but never read, and `main` does not call the library. The benchmark and Ruby spec scripts are not modelled either.
- Threads: `find_alt_with_threads` runs its chunks one after another. The model does not capture thread spawning, joining, or a panic inside a worker. The per-chunk results are concatenated in chunk order, as `join` in sequence does in the source.
- `thread::available_parallelism` is a parameter. Its error becomes `available == None`.
- `f32` arithmetic is modelled with exact reals. The model does not capture rounding, and it does not capture ties or order flips that rounding could cause.
- The `i32` table cells of `find_longest_common_substring_length` and the `as f32` casts are unbounded `nat`s and exact quotients. Overflow needs strings longer than 2^31 bytes.
- `PathUtils.CleansePath`: it returns a path whose byte 2 falls inside a character unchanged, where `cleanse_path` panics at `s[0..2]`. The panic is modelled apart, by `PathUtils.CleansePathAsWritten` and `Scoring.ScorePathsAsWritten` (see "## Findings"). The rest of the model uses the guarded function.
- Strings are sequences of bytes. `\w` is ASCII letters, digits and `_` (`Strings.IsWordChar`). The model does not capture the Unicode `\w` of the regex crate, and it does not capture UTF-8 decoding. `to_str` on a stem or parent never fails, because the input is a `&str`.
- `Path::file_stem` and `Path::parent` are modelled for `/`-separated paths (`PathNames`). The model does not capture how `std::path` normalises `.` components, repeated slashes and trailing slashes, beyond the cases the tests use.
- The regex crate is not modelled. Both patterns are decided by hand-written scans, and each scan is proved equal to what its pattern describes (`Classification.IsTestFileMatchesPattern`, `Alteration.FindMatchIsLeftmostFirst`).
- `Alt.SortScoredPaths`: `sort_by` is the standard library's merge sort. It is modelled as an in-place insertion sort. `Alt.StableSortIsUnique` shows that every stable sort with that comparator returns the same sequence, so the choice of algorithm makes no difference to the result.
- `Alt.TruncateScoredPaths`: the in-place `Vec::truncate` is a function on sequences. The caller then works with the returned sequence.
- `AltExamples.DatabaseDir`: the directory ratio is bounded, not computed exactly. Only the ratios needed to order the scores carry exact values. `AltExamples.ConcernsDir` and `AltExamples.MockesDir` are bounded in the same way.
- `AltExamples.FindAltSortsByScore`: the strict decrease of the five scores is a separate lemma, `AltExamples.FileWeightedScores`. `AltExamples.FindAltTruncates` relies on it in the same way.
- `ClassificationExamples.DetectsSwiftXctestFiles`: here and in every other classification fixture, the path is built as `DirPath(dirs, stem + "." + ext)` from its pieces instead of being written as one literal. The doc comment of each fixture gives the literal.

## Findings

| source | as written | input that shows it | evidently intended | confidence | as-written member | corrected member |
|---|---|---|---|---|---|---|
| src/alt/mod.rs:41-45 | the chunk size `len / p + len % p` is 0 for an empty candidate list, and `slice::chunks(0)` panics | `find_alt_with_threads(t, vec![], n, fw, pw)` with any parallelism | an empty list gives an empty result, as `find_alt` does | not executed | Alt.FindAltWithThreads, Alt.EmptyListHasNoChunkSize | Alt.FindAltWithThreadsGuarded |
| src/alt/path/utils/mod.rs:3 | `s[0..2]` is sliced for every path longer than one byte, and slicing a `str` off a character boundary panics; `score_paths` cleanses every candidate, so `find_alt` panics too; in `find_alt_with_threads` the worker whose chunk holds such a name panics, and `join().unwrap()` passes the panic on to the caller | a candidate `aé.rs` (bytes `61 C3 A9 2E 72 73`) in any candidate list | a path that does not open with `./` comes back unchanged | not executed | PathUtils.CleansePathAsWritten, PathUtils.CleansePathPanicsInsideCharacter, Scoring.ScorePathsAsWritten, ScoringExamples.ScorePathsPanicsOnCutCharacter | PathUtils.CleansePath, PathUtils.CleansePathShape |
