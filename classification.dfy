/**
 * Test-path classification (src/alt/path/classification/mod.rs):
 * `is_test_file`, a single regular expression with three alternatives, all
 * anchored at the start of the path:
 *   1. one of the test roots, or a first directory of word characters
 *      ending in `Tests`;
 *   2. one or more word-only directories followed by `spec/` or `test/`;
 *   3. the whole path: at least one non-newline byte, then `.spec.` or
 *      `.test.`, then word characters up to the end.
 * `IsTestFile` decides this by scanning; the `Regex*` predicates say what
 * the pattern's alternatives mean, and `IsTestFileMatchesPattern` proves
 * the two agree.
 */
module Classification {
  import opened Strings

  /** First alternative, fixed roots: `features/step_definitions/`, `test/`, `spec/`, `tests/`, `src/test/`. */
  predicate StartsWithTestRoot(s: string) {
    StartsWith(s, "features/step_definitions/") || StartsWith(s, "test/") || StartsWith(s, "spec/")
    || StartsWith(s, "tests/") || StartsWith(s, "src/test/")
  }

  /** First alternative, `\w*Tests/`: the first directory is word characters ending in `Tests`. */
  predicate FirstDirEndsInTests(s: string) {
    var k := WordPrefixLength(s);
    5 <= k < |s| && s[k] == '/' && s[k - 5..k] == "Tests"
  }

  /**
   * Second alternative, scanned from position `i`, the start of a
   * directory: either at least one directory lies behind and `spec/` or
   * `test/` starts here, or a non-empty word directory starts here and the
   * scan goes on after its slash.
   */
  predicate DirsThenSpecOrTest(s: string, i: nat)
    requires i <= |s|
    decreases |s| - i
  {
    (i > 0 && (StartsWith(s[i..], "spec/") || StartsWith(s[i..], "test/")))
    || (var k := i + WordPrefixLength(s[i..]); i < k < |s| && s[k] == '/' && DirsThenSpecOrTest(s, k + 1))
  }

  /**
   * Third alternative: after the last `.` come only (and at least one)
   * word characters, before it stands `.spec` or `.test`, and before that
   * at least one byte with no newline among them.
   */
  predicate HasDottedTestSuffix(s: string) {
    var d := LastIndexOf(s, '.');
    6 <= d && d + 1 < |s| && AllWord(s[d + 1..])
    && (s[d - 5..d] == ".spec" || s[d - 5..d] == ".test") && '\n' !in s[..d - 5]
  }

  /** `is_test_file`. */
  predicate IsTestFile(path: string) {
    StartsWithTestRoot(path) || FirstDirEndsInTests(path) || DirsThenSpecOrTest(path, 0) || HasDottedTestSuffix(path)
  }

  /** `(\w+/)+`: every `/` closes a non-empty word-only directory, and the text ends with one. */
  ghost predicate WordDirs(p: string) {
    |p| > 0 && p[|p| - 1] == '/'
    && (forall k :: 0 <= k < |p| ==> IsWordChar(p[k]) || p[k] == '/')
    && (forall k :: 0 <= k < |p| && p[k] == '/' ==> k > 0 && p[k - 1] != '/')
  }

  /** The first alternative of the pattern. */
  ghost predicate RegexRootOrTestsDir(s: string) {
    StartsWithTestRoot(s) || exists j: nat :: j + 6 <= |s| && AllWord(s[..j]) && s[j..j + 6] == "Tests/"
  }

  /** The second alternative of the pattern. */
  ghost predicate RegexNestedSpecOrTest(s: string) {
    exists e: nat :: e <= |s| && WordDirs(s[..e]) && (StartsWith(s[e..], "spec/") || StartsWith(s[e..], "test/"))
  }

  /** The third alternative of the pattern, anchored at both ends. */
  ghost predicate RegexDottedSuffix(s: string) {
    exists d: nat :: 6 <= d && d + 1 < |s| && s[d] == '.' && AllWord(s[d + 1..])
      && (s[d - 5..d] == ".spec" || s[d - 5..d] == ".test") && '\n' !in s[..d - 5]
  }

  /** The whole pattern: some alternative matches at the start. */
  ghost predicate MatchesTestPattern(s: string) {
    RegexRootOrTestsDir(s) || RegexNestedSpecOrTest(s) || RegexDottedSuffix(s)
  }

  lemma TestsDirAgrees(s: string)
    ensures FirstDirEndsInTests(s) <==> exists j: nat :: j + 6 <= |s| && AllWord(s[..j]) && s[j..j + 6] == "Tests/"
  {
    var k := WordPrefixLength(s);
    if FirstDirEndsInTests(s) {
      var j := k - 5;
      AllWordSplit(s[..k], j);
      assert s[..k][..j] == s[..j];
      assert s[j..j + 6] == s[j..k] + [s[k]];
    }
    if exists j: nat :: j + 6 <= |s| && AllWord(s[..j]) && s[j..j + 6] == "Tests/" {
      var j: nat :| j + 6 <= |s| && AllWord(s[..j]) && s[j..j + 6] == "Tests/";
      var tests := "Tests";
      assert s[j..j + 5] == s[j..j + 6][..5] == tests;
      assert AllWord(tests) by {
        assert tests[0] == 'T' && tests[1] == 'e' && tests[2] == 's' && tests[3] == 't' && tests[4] == 's';
      }
      AllWordSplit(s[..j + 5], j);
      assert s[..j + 5][..j] == s[..j] && s[..j + 5][j..] == s[j..j + 5];
      assert s[j + 5] == s[j..j + 6][5] == '/';
      WordPrefixLengthIs(s, j + 5);
    }
  }

  /** A word-dirs prefix ending at a slash inside it is itself word dirs. */
  lemma WordDirsPrefix(s: string, e: nat, k: nat)
    requires e <= |s| && WordDirs(s[..e]) && k < e && s[k] == '/'
    ensures WordDirs(s[..k + 1])
  {
    var p, q := s[..e], s[..k + 1];
    forall m | 0 <= m < |q| ensures q[m] == p[m] {
    }
  }

  /** Appending a non-empty word directory and its slash keeps word dirs. */
  lemma WordDirsExtend(s: string, i: nat, k: nat)
    requires i < k < |s| && (i == 0 || WordDirs(s[..i])) && AllWord(s[i..k]) && s[k] == '/'
    ensures WordDirs(s[..k + 1])
  {
    var q := s[..k + 1];
    forall m | 0 <= m < |q| ensures IsWordChar(q[m]) || q[m] == '/' {
      if i <= m < k {
        assert q[m] == s[i..k][m - i];
      } else if m < i {
        assert q[m] == s[..i][m];
      }
    }
    forall m | 0 <= m < |q| && q[m] == '/' ensures m > 0 && q[m - 1] != '/' {
      if m == k {
        assert q[m - 1] == s[i..k][k - 1 - i];
        assert IsWordChar(s[i..k][k - 1 - i]);
      } else {
        assert q[m] == s[..i][m];
      }
    }
  }

  /**
   * Inside a word-dirs prefix that goes past position `i`, where a
   * directory starts, the scan finds that directory's closing slash.
   */
  lemma NextDirInsideWordDirs(s: string, i: nat, e: nat)
    requires i < e <= |s| && WordDirs(s[..e]) && (i == 0 || s[i - 1] == '/')
    ensures var k := i + WordPrefixLength(s[i..]); i < k < e && s[k] == '/' && AllWord(s[i..k])
  {
    var p := s[..e];
    var w := WordPrefixLength(s[i..]);
    assert p[i] == s[i] == s[i..][0];
    if i > 0 {
      assert p[i - 1] == '/';
    }
    assert p[e - 1] == '/' == s[e - 1];
    assert forall m | i <= m < i + w :: s[m] == s[i..][..w][m - i];
    assert s[i + w] == s[i..][w] == p[i + w];
    assert s[i..i + w] == s[i..][..w];
  }

  /** Some word-dirs prefix reaching at least `i` is followed by `spec/` or `test/`. */
  ghost predicate NestedMarkerFrom(s: string, i: nat) {
    exists e: nat :: i <= e <= |s| && WordDirs(s[..e]) && (StartsWith(s[e..], "spec/") || StartsWith(s[e..], "test/"))
  }

  /** The directory scan from `i` succeeds exactly when a marker follows some word-dirs prefix. */
  lemma NestedAgrees(s: string, i: nat)
    requires i <= |s| && (i == 0 || WordDirs(s[..i]))
    ensures DirsThenSpecOrTest(s, i) <==> NestedMarkerFrom(s, i)
  {
    NestedSound(s, i);
    NestedComplete(s, i);
  }

  /** What the directory scan accepts, the pattern accepts. */
  lemma {:induction false} NestedSound(s: string, i: nat)
    requires i <= |s| && (i == 0 || WordDirs(s[..i]))
    ensures DirsThenSpecOrTest(s, i) ==> NestedMarkerFrom(s, i)
    decreases |s| - i
  {
    if DirsThenSpecOrTest(s, i) {
      var k := i + WordPrefixLength(s[i..]);
      if i > 0 && (StartsWith(s[i..], "spec/") || StartsWith(s[i..], "test/")) {
        assert NestedMarkerFrom(s, i);
      } else {
        assert i < k < |s| && s[k] == '/' && DirsThenSpecOrTest(s, k + 1);
        assert s[i..k] == s[i..][..k - i];
        WordDirsExtend(s, i, k);
        NestedSound(s, k + 1);
        var e: nat :| k + 1 <= e <= |s| && WordDirs(s[..e]) && (StartsWith(s[e..], "spec/") || StartsWith(s[e..], "test/"));
        assert NestedMarkerFrom(s, i);
      }
    }
  }

  /** What the pattern accepts, the directory scan accepts. */
  lemma NestedComplete(s: string, i: nat)
    requires i <= |s| && (i == 0 || WordDirs(s[..i]))
    ensures NestedMarkerFrom(s, i) ==> DirsThenSpecOrTest(s, i)
  {
    if NestedMarkerFrom(s, i) {
      var e: nat :| i <= e <= |s| && WordDirs(s[..e]) && (StartsWith(s[e..], "spec/") || StartsWith(s[e..], "test/"));
      ScanFindsMarker(s, i, e);
    }
  }

  /** The scan from `i` reaches the marker that follows the word-dirs prefix `s[..e]`. */
  lemma {:induction false} ScanFindsMarker(s: string, i: nat, e: nat)
    requires i <= e <= |s| && WordDirs(s[..e]) && (StartsWith(s[e..], "spec/") || StartsWith(s[e..], "test/"))
    requires i == 0 || WordDirs(s[..i])
    ensures DirsThenSpecOrTest(s, i)
    decreases e - i
  {
    if e > i {
      var k := i + WordPrefixLength(s[i..]);
      ScanReachesNextDir(s, i, e);
      ScanFindsMarker(s, k + 1, e);
    } else {
      assert s[..0] == [];
    }
  }

  /** Ahead of a longer word-dirs prefix, one step of the scan closes a directory. */
  lemma ScanReachesNextDir(s: string, i: nat, e: nat)
    requires i < e <= |s| && WordDirs(s[..e]) && (i == 0 || WordDirs(s[..i]))
    ensures var k := i + WordPrefixLength(s[i..]); i < k < e && s[k] == '/' && WordDirs(s[..k + 1])
  {
    var k := i + WordPrefixLength(s[i..]);
    if i > 0 {
      assert s[..i][i - 1] == s[i - 1];
    }
    NextDirInsideWordDirs(s, i, e);
    assert s[i..k] == s[i..][..k - i];
    WordDirsExtend(s, i, k);
  }

  lemma DottedAgrees(s: string)
    ensures HasDottedTestSuffix(s) <==> RegexDottedSuffix(s)
  {
    var d := LastIndexOf(s, '.');
    if RegexDottedSuffix(s) {
      var d': nat :| 6 <= d' && d' + 1 < |s| && s[d'] == '.' && AllWord(s[d' + 1..])
        && (s[d' - 5..d'] == ".spec" || s[d' - 5..d'] == ".test") && '\n' !in s[..d' - 5];
      if d > d' {
        WordHasNoSeparator(s[d' + 1..], d - d' - 1);
      }
      assert d == d';
    }
  }

  /** `IsTestFile` decides exactly the language of the pattern. */
  lemma IsTestFileMatchesPattern(path: string)
    ensures IsTestFile(path) <==> MatchesTestPattern(path)
  {
    TestsDirAgrees(path);
    NestedAgrees(path, 0);
    DottedAgrees(path);
    if RegexNestedSpecOrTest(path) {
      var e: nat :| e <= |path| && WordDirs(path[..e]) && (StartsWith(path[e..], "spec/") || StartsWith(path[e..], "test/"));
      assert NestedMarkerFrom(path, 0);
    }
  }

  /** The empty path matches no alternative: each needs at least one byte. */
  lemma EmptyPathIsNotTest()
    ensures !IsTestFile("")
  {
  }
}
