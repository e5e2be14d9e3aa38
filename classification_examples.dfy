/**
 * What `is_test_file` decides for paths made of word-character
 * directories and a file name `stem.ext`, and the tests of
 * src/alt/path/classification/mod.rs as lemmas on top of that.
 */
module ClassificationExamples {
  import opened Strings
  import opened Classification

  /** `d1/d2/.../dn/file`. */
  function DirPath(dirs: seq<string>, file: string): string
    decreases |dirs|
  {
    if dirs == [] then file else dirs[0] + "/" + DirPath(dirs[1..], file)
  }

  /** Every directory is a non-empty run of word characters. */
  predicate WordDirList(dirs: seq<string>) {
    forall k :: 0 <= k < |dirs| ==> dirs[k] != "" && AllWord(dirs[k])
  }

  /** The directories a test root names: `test/`, `spec/`, `tests/`, `features/step_definitions/`, `src/test/`. */
  predicate RootDirs(dirs: seq<string>) {
    |dirs| > 0
    && (dirs[0] == "test" || dirs[0] == "spec" || dirs[0] == "tests"
        || (|dirs| > 1 && ((dirs[0] == "features" && dirs[1] == "step_definitions") || (dirs[0] == "src" && dirs[1] == "test"))))
  }

  /** A directory `spec` or `test` at position `from` or later. */
  predicate MarkerDirFrom(dirs: seq<string>, from: nat) {
    exists k :: from <= k < |dirs| && (dirs[k] == "spec" || dirs[k] == "test")
  }

  /** A stem ending in `.spec` or `.test` with at least one byte before that in the whole path. */
  predicate DottedStem(dirs: seq<string>, stem: string) {
    (EndsWith(stem, ".spec") || EndsWith(stem, ".test")) && (|dirs| > 0 || |stem| >= 6)
  }

  lemma {:induction false} DirPathAppend(dirs: seq<string>, a: string, b: string)
    ensures DirPath(dirs, a + b) == DirPath(dirs, a) + b
    decreases |dirs|
  {
    if dirs != [] {
      DirPathAppend(dirs[1..], a, b);
    }
  }

  lemma {:induction false} DirPathHasNo(dirs: seq<string>, file: string, c: char)
    requires WordDirList(dirs) && c != '/' && !IsWordChar(c) && c !in file
    ensures c !in DirPath(dirs, file)
    decreases |dirs|
  {
    if dirs != [] {
      DirPathHasNo(dirs[1..], file, c);
      var s, d, rest := DirPath(dirs, file), dirs[0], DirPath(dirs[1..], file);
      forall i | 0 <= i < |s| ensures s[i] != c {
        if i < |d| {
          assert s[i] == d[i] && IsWordChar(d[i]);
        } else if i > |d| {
          assert s[i] == rest[i - |d| - 1];
        }
      }
    }
  }

  /** Two strings that differ at an index below the prefix's length do not share that prefix. */
  lemma DiffersAt(s: string, p: string, i: nat)
    requires i < |p| && i < |s| && s[i] != p[i]
    ensures !StartsWith(s, p)
  {
    if |p| <= |s| {
      assert s[..|p|][i] == s[i];
    }
  }

  lemma SlashFreeHasNoDirPrefix(s: string, p: string, j: nat)
    requires '/' !in s && j < |p| && p[j] == '/'
    ensures !StartsWith(s, p)
  {
    if |p| <= |s| {
      assert s[..|p|][j] == s[j];
    }
  }

  /** Below two word-character directories, one path opens with the other exactly when the names agree. */
  lemma StartsWithDir(d: string, rest: string, m: string, more: string)
    requires AllWord(d) && AllWord(m)
    ensures StartsWith(d + "/" + rest, m + "/" + more) <==> d == m && StartsWith(rest, more)
  {
    var s, p := d + "/" + rest, m + "/" + more;
    if d == m && StartsWith(rest, more) {
      assert s[..|p|] == m + "/" + rest[..|more|];
    } else if |d| < |m| {
      assert s[|d|] == '/' && p[|d|] == m[|d|] && IsWordChar(m[|d|]);
      DiffersAt(s, p, |d|);
    } else if |d| > |m| {
      assert p[|m|] == '/' && s[|m|] == d[|m|] && IsWordChar(d[|m|]);
      DiffersAt(s, p, |m|);
    } else if d != m {
      var j :| 0 <= j < |d| && d[j] != m[j];
      assert s[j] == d[j] && p[j] == m[j];
      DiffersAt(s, p, j);
    } else if |more| <= |rest| {
      var j :| 0 <= j < |more| && rest[j] != more[j];
      assert s[|d| + 1 + j] == rest[j] && p[|d| + 1 + j] == more[j];
      DiffersAt(s, p, |d| + 1 + j);
    }
  }

  lemma DirPathOpensWithDir(dirs: seq<string>, file: string, m: string)
    requires WordDirList(dirs) && '/' !in file && AllWord(m)
    ensures StartsWith(DirPath(dirs, file), m + "/") <==> |dirs| > 0 && dirs[0] == m
  {
    assert m + "/" == m + "/" + "";
    if dirs == [] {
      SlashFreeHasNoDirPrefix(file, m + "/", |m|);
    } else {
      StartsWithDir(dirs[0], DirPath(dirs[1..], file), m, "");
    }
  }

  lemma DirPathOpensWithDirs(dirs: seq<string>, file: string, m1: string, m2: string)
    requires WordDirList(dirs) && '/' !in file && AllWord(m1) && AllWord(m2)
    ensures StartsWith(DirPath(dirs, file), m1 + "/" + (m2 + "/")) <==> |dirs| > 1 && dirs[0] == m1 && dirs[1] == m2
  {
    if dirs == [] {
      SlashFreeHasNoDirPrefix(file, m1 + "/" + (m2 + "/"), |m1|);
    } else {
      StartsWithDir(dirs[0], DirPath(dirs[1..], file), m1, m2 + "/");
      DirPathOpensWithDir(dirs[1..], file, m2);
    }
  }

  /** The test roots of the first alternative, read off the directories. */
  lemma TestRootOfDirPath(dirs: seq<string>, file: string)
    requires WordDirList(dirs) && '/' !in file
    ensures StartsWithTestRoot(DirPath(dirs, file)) <==> RootDirs(dirs)
  {
    OpensWithTest(dirs, file);
    OpensWithSpec(dirs, file);
    OpensWithTests(dirs, file);
    OpensWithStepDefinitions(dirs, file);
    OpensWithSrcTest(dirs, file);
  }

  /** Each fixed root, one per lemma: the path opens with it exactly when the directories do. */
  lemma OpensWithTest(dirs: seq<string>, file: string)
    requires WordDirList(dirs) && '/' !in file
    ensures StartsWith(DirPath(dirs, file), "test/") <==> |dirs| > 0 && dirs[0] == "test"
  {
    var m := "test";
    assert AllWord(m) && "test/" == m + "/";
    DirPathOpensWithDir(dirs, file, m);
  }

  lemma OpensWithSpec(dirs: seq<string>, file: string)
    requires WordDirList(dirs) && '/' !in file
    ensures StartsWith(DirPath(dirs, file), "spec/") <==> |dirs| > 0 && dirs[0] == "spec"
  {
    var m := "spec";
    assert AllWord(m) && "spec/" == m + "/";
    DirPathOpensWithDir(dirs, file, m);
  }

  lemma OpensWithTests(dirs: seq<string>, file: string)
    requires WordDirList(dirs) && '/' !in file
    ensures StartsWith(DirPath(dirs, file), "tests/") <==> |dirs| > 0 && dirs[0] == "tests"
  {
    var m := "tests";
    assert AllWord(m) && "tests/" == m + "/";
    DirPathOpensWithDir(dirs, file, m);
  }

  lemma OpensWithStepDefinitions(dirs: seq<string>, file: string)
    requires WordDirList(dirs) && '/' !in file
    ensures StartsWith(DirPath(dirs, file), "features/step_definitions/")
        <==> |dirs| > 1 && dirs[0] == "features" && dirs[1] == "step_definitions"
  {
    var m1, m2 := "features", "step_definitions";
    assert AllWord(m1);
    assert AllWord(m2) by {
      assert forall i :: 0 <= i < |m2| ==> IsWordChar(m2[i]);
    }
    assert "features/step_definitions/" == m1 + "/" + (m2 + "/");
    DirPathOpensWithDirs(dirs, file, m1, m2);
  }

  lemma OpensWithSrcTest(dirs: seq<string>, file: string)
    requires WordDirList(dirs) && '/' !in file
    ensures StartsWith(DirPath(dirs, file), "src/test/") <==> |dirs| > 1 && dirs[0] == "src" && dirs[1] == "test"
  {
    var m1, m2 := "src", "test";
    assert AllWord(m1) && AllWord(m2);
    assert "src/test/" == m1 + "/" + (m2 + "/");
    DirPathOpensWithDirs(dirs, file, m1, m2);
  }

  /** The `\w*Tests/` part of the first alternative looks at the first directory only. */
  lemma FirstDirOfDirPath(dirs: seq<string>, file: string)
    requires WordDirList(dirs) && '/' !in file
    ensures FirstDirEndsInTests(DirPath(dirs, file)) <==> |dirs| > 0 && EndsWith(dirs[0], "Tests")
  {
    var s := DirPath(dirs, file);
    var k := WordPrefixLength(s);
    if dirs == [] {
      assert k < |s| ==> s[k] != '/';
    } else {
      var d := dirs[0];
      assert s[..|d|] == d && s[|d|] == '/';
      WordPrefixLengthIs(s, |d|);
      if |d| >= 5 {
        assert s[|d| - 5..|d|] == d[|d| - 5..];
      }
    }
  }

  /** The first directory of `d/rest` is `d`. */
  lemma DirHead(d: string, rest: string)
    requires d != "" && AllWord(d)
    ensures var t := d + "/" + rest; WordPrefixLength(t) == |d| && t[|d|] == '/' && t[|d| + 1..] == rest
  {
    var t := d + "/" + rest;
    assert t[..|d|] == d;
    WordPrefixLengthIs(t, |d|);
  }

  /** `d/rest` opens with `spec/` or `test/` exactly when `d` is that directory. */
  lemma MarkerHead(d: string, rest: string)
    requires AllWord(d)
    ensures StartsWith(d + "/" + rest, "spec/") <==> d == "spec"
    ensures StartsWith(d + "/" + rest, "test/") <==> d == "test"
  {
    var spec, test := "spec", "test";
    assert AllWord(spec) && AllWord(test);
    assert "spec/" == spec + "/" + "" && "test/" == test + "/" + "";
    StartsWithDir(d, rest, spec, "");
    StartsWithDir(d, rest, test, "");
  }

  /** One scan step: past a word directory `d`, either `d` is the marker or the scan goes on after it. */
  lemma NestedStep(s: string, i: nat, d: string, rest: string)
    requires i <= |s| && s[i..] == d + "/" + rest && d != "" && AllWord(d)
    ensures i + |d| + 1 <= |s| && s[i + |d| + 1..] == rest
    ensures DirsThenSpecOrTest(s, i) <==> (i > 0 && (d == "spec" || d == "test")) || DirsThenSpecOrTest(s, i + |d| + 1)
  {
    DirHead(d, rest);
    MarkerHead(d, rest);
    var t := s[i..];
    assert s[i + |d|] == t[|d|];
    assert s[i + |d| + 1..] == t[|d| + 1..];
  }

  /** The scan finds nothing in a file name without a slash. */
  lemma NestedStops(s: string, i: nat)
    requires i <= |s| && '/' !in s[i..]
    ensures !DirsThenSpecOrTest(s, i)
  {
    SlashFreeHasNoDirPrefix(s[i..], "spec/", 4);
    SlashFreeHasNoDirPrefix(s[i..], "test/", 4);
    var k := i + WordPrefixLength(s[i..]);
    assert k < |s| ==> s[k] == s[i..][k - i];
  }

  lemma MarkerShift(dirs: seq<string>)
    requires dirs != []
    ensures MarkerDirFrom(dirs, 1) <==> MarkerDirFrom(dirs[1..], 0)
    ensures MarkerDirFrom(dirs, 0) <==> dirs[0] == "spec" || dirs[0] == "test" || MarkerDirFrom(dirs[1..], 0)
  {
    if MarkerDirFrom(dirs[1..], 0) {
      var j :| 0 <= j < |dirs[1..]| && (dirs[1..][j] == "spec" || dirs[1..][j] == "test");
      assert dirs[j + 1] == dirs[1..][j];
    }
    if MarkerDirFrom(dirs, 0) {
      var j :| 0 <= j < |dirs| && (dirs[j] == "spec" || dirs[j] == "test");
      if j > 0 {
        assert dirs[1..][j - 1] == dirs[j];
      }
    }
  }

  /** The second alternative: a `spec` or `test` directory below at least one other. */
  lemma {:induction false} NestedOfDirPath(s: string, i: nat, dirs: seq<string>, file: string)
    requires i <= |s| && s[i..] == DirPath(dirs, file) && WordDirList(dirs) && '/' !in file
    ensures DirsThenSpecOrTest(s, i) <==> MarkerDirFrom(dirs, if i > 0 then 0 else 1)
    decreases |dirs|
  {
    if dirs == [] {
      NestedStops(s, i);
    } else {
      var d, tail := dirs[0], dirs[1..];
      assert DirPath(dirs, file) == d + "/" + DirPath(tail, file);
      assert WordDirList(tail) by {
        forall k | 0 <= k < |tail| ensures tail[k] != "" && AllWord(tail[k]) {
          assert tail[k] == dirs[k + 1];
        }
      }
      NestedStep(s, i, d, DirPath(tail, file));
      NestedOfDirPath(s, i + |d| + 1, tail, file);
      MarkerShift(dirs);
    }
  }

  lemma EndsWithBelowSlash(p: string, stem: string, m: string)
    requires p != [] && p[|p| - 1] == '/' && '/' !in m
    ensures EndsWith(p + stem, m) <==> EndsWith(stem, m)
  {
    var s := p + stem;
    if |m| <= |stem| {
      assert s[|s| - |m|..] == stem[|stem| - |m|..];
    } else if |m| <= |s| {
      var j := |m| - |stem| - 1;
      assert s[|s| - |m|..][j] == s[|p| - 1] == '/';
    }
  }

  /** The last `.` of `front.ext` is the one before `ext`. */
  lemma LastDotBeforeExt(front: string, ext: string)
    requires '.' !in ext
    ensures var s := front + "." + ext; LastIndexOf(s, '.') == |front| && s[|front| + 1..] == ext && s[..|front|] == front
  {
    var s := front + "." + ext;
    assert s[|front|] == '.';
    assert forall k :: |front| < k < |s| ==> s[k] == ext[k - |front| - 1];
    assert s[|front| + 1..] == ext;
  }

  /** Below a directory, a `.spec`/`.test` suffix of the whole front is one of the stem. */
  lemma DottedFront(dirs: seq<string>, stem: string)
    requires WordDirList(dirs) && '/' !in stem
    ensures var front := DirPath(dirs, stem);
      (EndsWith(front, ".spec") || EndsWith(front, ".test")) && |front| >= 6 <==> DottedStem(dirs, stem)
  {
    if dirs != [] {
      var p := DirPath(dirs, "");
      DirPathAppend(dirs, "", stem);
      assert "" + stem == stem;
      assert DirPath(dirs, stem) == p + stem;
      DirPathIsNotEmptyEndsInSlash(dirs);
      EndsWithBelowSlash(p, stem, ".spec");
      EndsWithBelowSlash(p, stem, ".test");
    }
  }

  /** The third alternative: the stem ends in `.spec` or `.test` and the extension is word characters. */
  lemma DottedOfDirPath(dirs: seq<string>, stem: string, ext: string)
    requires WordDirList(dirs) && '/' !in stem && '\n' !in stem && '.' !in ext
    ensures HasDottedTestSuffix(DirPath(dirs, stem + "." + ext)) <==> ext != "" && AllWord(ext) && DottedStem(dirs, stem)
  {
    var front := DirPath(dirs, stem);
    var s := front + "." + ext;
    DirPathAppend(dirs, stem, "." + ext);
    assert DirPath(dirs, stem + "." + ext) == s by {
      ConcatAssociative(stem, ".", ext);
      ConcatAssociative(front, ".", ext);
    }
    LastDotBeforeExt(front, ext);
    if |front| >= 5 {
      assert s[|front| - 5..|front|] == front[|front| - 5..];
      DirPathHasNo(dirs, stem, '\n');
      assert s[..|front| - 5] == front[..|front| - 5];
      NotInPrefix(front, |front| - 5, '\n');
    }
    DottedFront(dirs, stem);
  }

  lemma NotInPrefix(a: string, n: nat, c: char)
    requires n <= |a| && c !in a
    ensures c !in a[..n]
  {
    assert forall i | 0 <= i < n :: a[..n][i] == a[i];
  }

  lemma {:induction false} DirPathIsNotEmptyEndsInSlash(dirs: seq<string>)
    requires dirs != [] && WordDirList(dirs)
    ensures var p := DirPath(dirs, ""); |p| >= 2 && p[|p| - 1] == '/'
    decreases |dirs|
  {
    if |dirs| > 1 {
      DirPathIsNotEmptyEndsInSlash(dirs[1..]);
    }
  }

  /**
   * For a path of word-character directories and a file `stem.ext`,
   * `is_test_file` holds exactly when the directories open with a test
   * root, the first one ends in `Tests`, a `spec` or `test` directory
   * lies below another one, or the stem ends in `.spec` or `.test`.
   */
  lemma IsTestFileOfDirPath(dirs: seq<string>, stem: string, ext: string)
    requires WordDirList(dirs) && '/' !in stem && '\n' !in stem && '.' !in ext && '/' !in ext
    ensures IsTestFile(DirPath(dirs, stem + "." + ext))
        <==> RootDirs(dirs) || (|dirs| > 0 && EndsWith(dirs[0], "Tests")) || MarkerDirFrom(dirs, 1)
             || (ext != "" && AllWord(ext) && DottedStem(dirs, stem))
  {
    var file := stem + "." + ext;
    assert '/' !in file by {
      forall i | 0 <= i < |file| ensures file[i] != '/' {
        if i < |stem| { assert file[i] == stem[i]; } else if i > |stem| { assert file[i] == ext[i - |stem| - 1]; }
      }
    }
    var s := DirPath(dirs, file);
    assert s[0..] == s;
    TestRootOfDirPath(dirs, file);
    FirstDirOfDirPath(dirs, file);
    NestedOfDirPath(s, 0, dirs, file);
    DottedOfDirPath(dirs, stem, ext);
  }

  /** `AutomotiveTests/Vehicles/VehicleAttributesVehicleTests.swift` is a test file. */
  lemma DetectsSwiftXctestFiles(dirs: seq<string>, stem: string, ext: string)
    requires dirs == ["AutomotiveTests", "Vehicles"] && stem == "VehicleAttributesVehicleTests" && ext == "swift"
    ensures IsTestFile(DirPath(dirs, stem + "." + ext))
  {
    IsTestFileOfDirPath(dirs, stem, ext);
  }

  /** `AutomotiveUITests/Vehicles/VehicleAttributesVehicleUITests.swift` is a test file. */
  lemma DetectsSwiftXcuiFiles(dirs: seq<string>, stem: string, ext: string)
    requires dirs == ["AutomotiveUITests", "Vehicles"] && stem == "VehicleAttributesVehicleUITests" && ext == "swift"
    ensures IsTestFile(DirPath(dirs, stem + "." + ext))
  {
    IsTestFileOfDirPath(dirs, stem, ext);
  }

  /** `AutomotiveTests/Vehicles/VehicleAttributesVehicleSpec.swift` is a test file. */
  lemma DetectsSwiftQuickFiles(dirs: seq<string>, stem: string, ext: string)
    requires dirs == ["AutomotiveTests", "Vehicles"] && stem == "VehicleAttributesVehicleSpec" && ext == "swift"
    ensures IsTestFile(DirPath(dirs, stem + "." + ext))
  {
    IsTestFileOfDirPath(dirs, stem, ext);
  }

  /** `AutomotiveUITests/Vehicles/VehicleAttributesVehicleUISpec.swift` is a test file. */
  lemma DetectsSwiftQuickUiFiles(dirs: seq<string>, stem: string, ext: string)
    requires dirs == ["AutomotiveUITests", "Vehicles"] && stem == "VehicleAttributesVehicleUISpec" && ext == "swift"
    ensures IsTestFile(DirPath(dirs, stem + "." + ext))
  {
    IsTestFileOfDirPath(dirs, stem, ext);
  }

  /** `Automotive/Vehicles/VehicleAttributesVehicle.swift` is not a test file. */
  lemma DoesNotDetectSwiftImplementationFiles(dirs: seq<string>, stem: string, ext: string)
    requires dirs == ["Automotive", "Vehicles"] && stem == "VehicleAttributesVehicle" && ext == "swift"
    ensures !IsTestFile(DirPath(dirs, stem + "." + ext))
  {
    IsTestFileOfDirPath(dirs, stem, ext);
  }

  /** `spec/foo_spec.rb` is a test file. */
  lemma DetectsRubyGemTestFiles(dirs: seq<string>, stem: string, ext: string)
    requires dirs == ["spec"] && stem == "foo_spec" && ext == "rb"
    ensures IsTestFile(DirPath(dirs, stem + "." + ext))
  {
    IsTestFileOfDirPath(dirs, stem, ext);
  }

  /** `spec/lib/foo_spec.rb` is a test file. */
  lemma DetectsRubyGemTestFilesUnderLib(dirs: seq<string>, stem: string, ext: string)
    requires dirs == ["spec", "lib"] && stem == "foo_spec" && ext == "rb"
    ensures IsTestFile(DirPath(dirs, stem + "." + ext))
  {
    IsTestFileOfDirPath(dirs, stem, ext);
  }

  /** `lib/foo.rb` is not a test file. */
  lemma DoesNotDetectRubyGemImplementationFiles(dirs: seq<string>, stem: string, ext: string)
    requires dirs == ["lib"] && stem == "foo" && ext == "rb"
    ensures !IsTestFile(DirPath(dirs, stem + "." + ext))
  {
    IsTestFileOfDirPath(dirs, stem, ext);
  }

  /** `spec/lib/tasks/bar/foo_rake_spec.rb` is a test file. */
  lemma DetectsRakeTestFiles(dirs: seq<string>, stem: string, ext: string)
    requires dirs == ["spec", "lib", "tasks", "bar"] && stem == "foo_rake_spec" && ext == "rb"
    ensures IsTestFile(DirPath(dirs, stem + "." + ext))
  {
    IsTestFileOfDirPath(dirs, stem, ext);
  }

  /** `lib/tasks/bar/foo.rake` is not a test file. */
  lemma DoesNotDetectRakeImplementationFiles(dirs: seq<string>, stem: string, ext: string)
    requires dirs == ["lib", "tasks", "bar"] && stem == "foo" && ext == "rake"
    ensures !IsTestFile(DirPath(dirs, stem + "." + ext))
  {
    IsTestFileOfDirPath(dirs, stem, ext);
  }

  /** `app/controllers/tasks_controller.rb` is not a test file. */
  lemma DoesNotDetectRailsControllerImplementationFiles(dirs: seq<string>, stem: string, ext: string)
    requires dirs == ["app", "controllers"] && stem == "tasks_controller" && ext == "rb"
    ensures !IsTestFile(DirPath(dirs, stem + "." + ext))
  {
    IsTestFileOfDirPath(dirs, stem, ext);
  }

  /** `app/models/task.rb` is not a test file. */
  lemma DoesNotDetectRailsModelImplementationFiles(dirs: seq<string>, stem: string, ext: string)
    requires dirs == ["app", "models"] && stem == "task" && ext == "rb"
    ensures !IsTestFile(DirPath(dirs, stem + "." + ext))
  {
    IsTestFileOfDirPath(dirs, stem, ext);
  }

  /** `app/helpers/hoopty.rb` is not a test file. */
  lemma DoesNotDetectRailsHelperImplementationFiles(dirs: seq<string>, stem: string, ext: string)
    requires dirs == ["app", "helpers"] && stem == "hoopty" && ext == "rb"
    ensures !IsTestFile(DirPath(dirs, stem + "." + ext))
  {
    IsTestFileOfDirPath(dirs, stem, ext);
  }

  /** `app/mailers/hoopty_mailer.rb` is not a test file. */
  lemma DoesNotDetectRailsMailerImplementationFiles(dirs: seq<string>, stem: string, ext: string)
    requires dirs == ["app", "mailers"] && stem == "hoopty_mailer" && ext == "rb"
    ensures !IsTestFile(DirPath(dirs, stem + "." + ext))
  {
    IsTestFileOfDirPath(dirs, stem, ext);
  }

  /** `bar/foo.rake` is not a test file. */
  lemma DoesNotDetectRailsRakeImplementationFiles(dirs: seq<string>, stem: string, ext: string)
    requires dirs == ["bar"] && stem == "foo" && ext == "rake"
    ensures !IsTestFile(DirPath(dirs, stem + "." + ext))
  {
    IsTestFileOfDirPath(dirs, stem, ext);
  }

  /** `test/controllers/tasks_controller_test.rb` is a test file. */
  lemma DetectsMinitestControllerTestFiles(dirs: seq<string>, stem: string, ext: string)
    requires dirs == ["test", "controllers"] && stem == "tasks_controller_test" && ext == "rb"
    ensures IsTestFile(DirPath(dirs, stem + "." + ext))
  {
    IsTestFileOfDirPath(dirs, stem, ext);
  }

  /** `test/models/task_test.rb` is a test file. */
  lemma DetectsMinitestModelTestFiles(dirs: seq<string>, stem: string, ext: string)
    requires dirs == ["test", "models"] && stem == "task_test" && ext == "rb"
    ensures IsTestFile(DirPath(dirs, stem + "." + ext))
  {
    IsTestFileOfDirPath(dirs, stem, ext);
  }

  /** `test/helpers/hoopty_test.rb` is a test file. */
  lemma DetectsMinitestHelperTestFiles(dirs: seq<string>, stem: string, ext: string)
    requires dirs == ["test", "helpers"] && stem == "hoopty_test" && ext == "rb"
    ensures IsTestFile(DirPath(dirs, stem + "." + ext))
  {
    IsTestFileOfDirPath(dirs, stem, ext);
  }

  /** `test/mailers/hoopty_mailer_test.rb` is a test file. */
  lemma DetectsMinitestMailerTestFiles(dirs: seq<string>, stem: string, ext: string)
    requires dirs == ["test", "mailers"] && stem == "hoopty_mailer_test" && ext == "rb"
    ensures IsTestFile(DirPath(dirs, stem + "." + ext))
  {
    IsTestFileOfDirPath(dirs, stem, ext);
  }

  /** `test/foo_test.rb` is a test file. */
  lemma DetectsMinitestLibTestFiles(dirs: seq<string>, stem: string, ext: string)
    requires dirs == ["test"] && stem == "foo_test" && ext == "rb"
    ensures IsTestFile(DirPath(dirs, stem + "." + ext))
  {
    IsTestFileOfDirPath(dirs, stem, ext);
  }

  /** `test/bar/foo_rake_test.rb` is a test file. */
  lemma DetectsMinitestRakeTestFiles(dirs: seq<string>, stem: string, ext: string)
    requires dirs == ["test", "bar"] && stem == "foo_rake_test" && ext == "rb"
    ensures IsTestFile(DirPath(dirs, stem + "." + ext))
  {
    IsTestFileOfDirPath(dirs, stem, ext);
  }

  /** `components/module1/test/app/controllers/file_controller_test.rb` is a test file. */
  lemma DetectsRailsMonorepoTestFiles(dirs: seq<string>, stem: string, ext: string)
    requires dirs == ["components", "module1", "test", "app", "controllers"] && stem == "file_controller_test" && ext == "rb"
    ensures IsTestFile(DirPath(dirs, stem + "." + ext))
  {
    assert dirs[2] == "test";
    IsTestFileOfDirPath(dirs, stem, ext);
  }

  /** `spec/controllers/tasks_controller_spec.rb` is a test file. */
  lemma DetectsRspecControllerTestFiles(dirs: seq<string>, stem: string, ext: string)
    requires dirs == ["spec", "controllers"] && stem == "tasks_controller_spec" && ext == "rb"
    ensures IsTestFile(DirPath(dirs, stem + "." + ext))
  {
    IsTestFileOfDirPath(dirs, stem, ext);
  }

  /** `spec/models/task_spec.rb` is a test file. */
  lemma DetectsRspecModelTestFiles(dirs: seq<string>, stem: string, ext: string)
    requires dirs == ["spec", "models"] && stem == "task_spec" && ext == "rb"
    ensures IsTestFile(DirPath(dirs, stem + "." + ext))
  {
    IsTestFileOfDirPath(dirs, stem, ext);
  }

  /** `spec/helpers/hoopty_spec.rb` is a test file. */
  lemma DetectsRspecHelperTestFiles(dirs: seq<string>, stem: string, ext: string)
    requires dirs == ["spec", "helpers"] && stem == "hoopty_spec" && ext == "rb"
    ensures IsTestFile(DirPath(dirs, stem + "." + ext))
  {
    IsTestFileOfDirPath(dirs, stem, ext);
  }

  /** `spec/mailers/hoopty_mailer_spec.rb` is a test file. */
  lemma DetectsRspecMailerTestFiles(dirs: seq<string>, stem: string, ext: string)
    requires dirs == ["spec", "mailers"] && stem == "hoopty_mailer_spec" && ext == "rb"
    ensures IsTestFile(DirPath(dirs, stem + "." + ext))
  {
    IsTestFileOfDirPath(dirs, stem, ext);
  }

  /** `spec/bar/foo_rake_spec.rb` is a test file. */
  lemma DetectsRspecRakeTestFiles(dirs: seq<string>, stem: string, ext: string)
    requires dirs == ["spec", "bar"] && stem == "foo_rake_spec" && ext == "rb"
    ensures IsTestFile(DirPath(dirs, stem + "." + ext))
  {
    IsTestFileOfDirPath(dirs, stem, ext);
  }

  /** `components/module1/spec/app/controllers/file_controller_spec.rb` is a test file. */
  lemma DetectsRailsMonorepoSpecFiles(dirs: seq<string>, stem: string, ext: string)
    requires dirs == ["components", "module1", "spec", "app", "controllers"] && stem == "file_controller_spec" && ext == "rb"
    ensures IsTestFile(DirPath(dirs, stem + "." + ext))
  {
    assert dirs[2] == "spec";
    IsTestFileOfDirPath(dirs, stem, ext);
  }

  /** `components/module1/app/controller/file_controller.rb` is not a test file. */
  lemma DetectsRailsMonorepoImplementationFiles(dirs: seq<string>, stem: string, ext: string)
    requires dirs == ["components", "module1", "app", "controller"] && stem == "file_controller" && ext == "rb"
    ensures !IsTestFile(DirPath(dirs, stem + "." + ext))
  {
    RailsMonorepoDirs(dirs);
    IsTestFileOfDirPath(dirs, stem, ext);
  }

  /** The directories of the above are words and name no test directory. */
  lemma RailsMonorepoDirs(dirs: seq<string>)
    requires dirs == ["components", "module1", "app", "controller"]
    ensures WordDirList(dirs) && !RootDirs(dirs) && !EndsWith(dirs[0], "Tests") && !MarkerDirFrom(dirs, 1)
  {
    RailsMonorepoWords(dirs);
  }

  lemma RailsMonorepoWords(dirs: seq<string>)
    requires dirs == ["components", "module1", "app", "controller"]
    ensures WordDirList(dirs)
  {
  }

  /** `app/controllers/users/create.rb` is not a test file. */
  lemma DoesNotDetectHanamiAppControllerImplementationFiles(dirs: seq<string>, stem: string, ext: string)
    requires dirs == ["app", "controllers", "users"] && stem == "create" && ext == "rb"
    ensures !IsTestFile(DirPath(dirs, stem + "." + ext))
  {
    IsTestFileOfDirPath(dirs, stem, ext);
  }

  /** `app/views/users/create.rb` is not a test file. */
  lemma DoesNotDetectHanamiAppViewImplementationFiles(dirs: seq<string>, stem: string, ext: string)
    requires dirs == ["app", "views", "users"] && stem == "create" && ext == "rb"
    ensures !IsTestFile(DirPath(dirs, stem + "." + ext))
  {
    IsTestFileOfDirPath(dirs, stem, ext);
  }

  /** `lib/foo/bar/car/my_lib.rb` is not a test file. */
  lemma DoesNotDetectHanamiAppLibImplementationFiles(dirs: seq<string>, stem: string, ext: string)
    requires dirs == ["lib", "foo", "bar", "car"] && stem == "my_lib" && ext == "rb"
    ensures !IsTestFile(DirPath(dirs, stem + "." + ext))
  {
    IsTestFileOfDirPath(dirs, stem, ext);
  }

  /** `app/fulfiller.rb` is not a test file. */
  lemma DoesNotDetectHanamiAppGeneralImplementationFiles(dirs: seq<string>, stem: string, ext: string)
    requires dirs == ["app"] && stem == "fulfiller" && ext == "rb"
    ensures !IsTestFile(DirPath(dirs, stem + "." + ext))
  {
    IsTestFileOfDirPath(dirs, stem, ext);
  }

  /** `spec/controllers/users/create_spec.rb` is a test file. */
  lemma DetectsHanamiAppRspecControllerTestFiles(dirs: seq<string>, stem: string, ext: string)
    requires dirs == ["spec", "controllers", "users"] && stem == "create_spec" && ext == "rb"
    ensures IsTestFile(DirPath(dirs, stem + "." + ext))
  {
    IsTestFileOfDirPath(dirs, stem, ext);
  }

  /** `spec/views/users/create_spec.rb` is a test file. */
  lemma DetectsHanamiAppRspecViewTestFiles(dirs: seq<string>, stem: string, ext: string)
    requires dirs == ["spec", "views", "users"] && stem == "create_spec" && ext == "rb"
    ensures IsTestFile(DirPath(dirs, stem + "." + ext))
  {
    IsTestFileOfDirPath(dirs, stem, ext);
  }

  /** `spec/foo/bar/car/my_lib_spec.rb` is a test file. */
  lemma DetectsHanamiAppRspecLibTestFiles(dirs: seq<string>, stem: string, ext: string)
    requires dirs == ["spec", "foo", "bar", "car"] && stem == "my_lib_spec" && ext == "rb"
    ensures IsTestFile(DirPath(dirs, stem + "." + ext))
  {
    IsTestFileOfDirPath(dirs, stem, ext);
  }

  /** `spec/fulfiller_spec.rb` is a test file. */
  lemma DetectsHanamiAppRspecGeneralTestFiles(dirs: seq<string>, stem: string, ext: string)
    requires dirs == ["spec"] && stem == "fulfiller_spec" && ext == "rb"
    ensures IsTestFile(DirPath(dirs, stem + "." + ext))
  {
    IsTestFileOfDirPath(dirs, stem, ext);
  }

  /** `apps/web/controllers/users/create.rb` is not a test file. */
  lemma DoesNotDetectHanamiContainerControllerImplementationFiles(dirs: seq<string>, stem: string, ext: string)
    requires dirs == ["apps", "web", "controllers", "users"] && stem == "create" && ext == "rb"
    ensures !IsTestFile(DirPath(dirs, stem + "." + ext))
  {
    IsTestFileOfDirPath(dirs, stem, ext);
  }

  /** `apps/web/views/users/create.rb` is not a test file. */
  lemma DoesNotDetectHanamiContainerViewImplementationFiles(dirs: seq<string>, stem: string, ext: string)
    requires dirs == ["apps", "web", "views", "users"] && stem == "create" && ext == "rb"
    ensures !IsTestFile(DirPath(dirs, stem + "." + ext))
  {
    IsTestFileOfDirPath(dirs, stem, ext);
  }

  /** `apps/offer_service/fulfiller.rb` is not a test file. */
  lemma DoesNotDetectHanamiContainerGeneralImplementationFiles(dirs: seq<string>, stem: string, ext: string)
    requires dirs == ["apps", "offer_service"] && stem == "fulfiller" && ext == "rb"
    ensures !IsTestFile(DirPath(dirs, stem + "." + ext))
  {
    IsTestFileOfDirPath(dirs, stem, ext);
  }

  /** `spec/web/controllers/users/create_spec.rb` is a test file. */
  lemma DetectsHanamiContainerRspecControllerTestFiles(dirs: seq<string>, stem: string, ext: string)
    requires dirs == ["spec", "web", "controllers", "users"] && stem == "create_spec" && ext == "rb"
    ensures IsTestFile(DirPath(dirs, stem + "." + ext))
  {
    IsTestFileOfDirPath(dirs, stem, ext);
  }

  /** `spec/web/views/users/create_spec.rb` is a test file. */
  lemma DetectsHanamiContainerRspecViewTestFiles(dirs: seq<string>, stem: string, ext: string)
    requires dirs == ["spec", "web", "views", "users"] && stem == "create_spec" && ext == "rb"
    ensures IsTestFile(DirPath(dirs, stem + "." + ext))
  {
    IsTestFileOfDirPath(dirs, stem, ext);
  }

  /** `spec/offer_service/fulfiller_spec.rb` is a test file. */
  lemma DetectsHanamiContainerRspecGeneralTestFiles(dirs: seq<string>, stem: string, ext: string)
    requires dirs == ["spec", "offer_service"] && stem == "fulfiller_spec" && ext == "rb"
    ensures IsTestFile(DirPath(dirs, stem + "." + ext))
  {
    IsTestFileOfDirPath(dirs, stem, ext);
  }

  /** `test/lib/my_awesome_app/supervisor_test.exs` is a test file. */
  lemma DetectsElixerExunitFiles(dirs: seq<string>, stem: string, ext: string)
    requires dirs == ["test", "lib", "my_awesome_app"] && stem == "supervisor_test" && ext == "exs"
    ensures IsTestFile(DirPath(dirs, stem + "." + ext))
  {
    IsTestFileOfDirPath(dirs, stem, ext);
  }

  /** `lib/my_awesome_app/supervisor.ex` is not a test file. */
  lemma DoesNotDetectElixerImplementationFiles(dirs: seq<string>, stem: string, ext: string)
    requires dirs == ["lib", "my_awesome_app"] && stem == "supervisor" && ext == "ex"
    ensures !IsTestFile(DirPath(dirs, stem + "." + ext))
  {
    IsTestFileOfDirPath(dirs, stem, ext);
  }

  /** `spec/foo/bar/jacked_spec.js` is a test file. */
  lemma DetectsJsJasmineTestFiles(dirs: seq<string>, stem: string, ext: string)
    requires dirs == ["spec", "foo", "bar"] && stem == "jacked_spec" && ext == "js"
    ensures IsTestFile(DirPath(dirs, stem + "." + ext))
  {
    IsTestFileOfDirPath(dirs, stem, ext);
  }

  /** `test/foo/bar/jacked.test.js` is a test file. */
  lemma DetectsJsMochaTestFiles(dirs: seq<string>, stem: string, ext: string)
    requires dirs == ["test", "foo", "bar"] && stem == "jacked.test" && ext == "js"
    ensures IsTestFile(DirPath(dirs, stem + "." + ext))
  {
    IsTestFileOfDirPath(dirs, stem, ext);
  }

  /** `foo/bar/jacked.js` is not a test file. */
  lemma DoesNotDetectJsImplementationFiles(dirs: seq<string>, stem: string, ext: string)
    requires dirs == ["foo", "bar"] && stem == "jacked" && ext == "js"
    ensures !IsTestFile(DirPath(dirs, stem + "." + ext))
  {
    IsTestFileOfDirPath(dirs, stem, ext);
  }

  /** `src/foo/bar/jacked.test.js` is a test file. */
  lemma DetectsJsMochaTestFilesInSrcDirectory(dirs: seq<string>, stem: string, ext: string)
    requires dirs == ["src", "foo", "bar"] && stem == "jacked.test" && ext == "js"
    ensures IsTestFile(DirPath(dirs, stem + "." + ext))
  {
    IsTestFileOfDirPath(dirs, stem, ext);
  }

  /** `src/foo/bar/jacked.spec.js` is a test file. */
  lemma DetectsJsMochaSpecFilesInSrcDirectory(dirs: seq<string>, stem: string, ext: string)
    requires dirs == ["src", "foo", "bar"] && stem == "jacked.spec" && ext == "js"
    ensures IsTestFile(DirPath(dirs, stem + "." + ext))
  {
    IsTestFileOfDirPath(dirs, stem, ext);
  }

  /** `test/test_toaster.py` is a test file. */
  lemma DetectsPythonTestFiles(dirs: seq<string>, stem: string, ext: string)
    requires dirs == ["test"] && stem == "test_toaster" && ext == "py"
    ensures IsTestFile(DirPath(dirs, stem + "." + ext))
  {
    IsTestFileOfDirPath(dirs, stem, ext);
  }

  /** `toaster.py` is not a test file. */
  lemma DoesNotDetectPythonImplementationFiles(dirs: seq<string>, stem: string, ext: string)
    requires dirs == [] && stem == "toaster" && ext == "py"
    ensures !IsTestFile(DirPath(dirs, stem + "." + ext))
  {
    IsTestFileOfDirPath(dirs, stem, ext);
  }

  /** `features/step_definitions/project_management_steps.rb` is a test file. */
  lemma DetectsCucumberStepDefinitionFiles(dirs: seq<string>, stem: string, ext: string)
    requires dirs == ["features", "step_definitions"] && stem == "project_management_steps" && ext == "rb"
    ensures IsTestFile(DirPath(dirs, stem + "." + ext))
  {
    IsTestFileOfDirPath(dirs, stem, ext);
  }

  /** `features/project_management.feature` is not a test file. */
  lemma DoesNotDetectCucumberFeatureFiles(dirs: seq<string>, stem: string, ext: string)
    requires dirs == ["features"] && stem == "project_management" && ext == "feature"
    ensures !IsTestFile(DirPath(dirs, stem + "." + ext))
  {
    IsTestFileOfDirPath(dirs, stem, ext);
  }

  /** `src/test/java/com/example/SomethingTest.java` is a test file. */
  lemma DetectsJavaMavenJunitTestFiles(dirs: seq<string>, stem: string, ext: string)
    requires dirs == ["src", "test", "java", "com", "example"] && stem == "SomethingTest" && ext == "java"
    ensures IsTestFile(DirPath(dirs, stem + "." + ext))
  {
    IsTestFileOfDirPath(dirs, stem, ext);
  }

  /** `src/main/java/com/example/Something.java` is not a test file. */
  lemma DoesNotDetectJavaImplementationFiles(dirs: seq<string>, stem: string, ext: string)
    requires dirs == ["src", "main", "java", "com", "example"] && stem == "Something" && ext == "java"
    ensures !IsTestFile(DirPath(dirs, stem + "." + ext))
  {
    IsTestFileOfDirPath(dirs, stem, ext);
  }

  /** `src/test/scala/com/example/SomethingTest.scala` is a test file. */
  lemma DetectsScalaScalatestTestFiles(dirs: seq<string>, stem: string, ext: string)
    requires dirs == ["src", "test", "scala", "com", "example"] && stem == "SomethingTest" && ext == "scala"
    ensures IsTestFile(DirPath(dirs, stem + "." + ext))
  {
    IsTestFileOfDirPath(dirs, stem, ext);
  }

  /** `src/test/scala/com/example/SomethingSpec.scala` is a test file. */
  lemma DetectsScalaScalatestSpecFiles(dirs: seq<string>, stem: string, ext: string)
    requires dirs == ["src", "test", "scala", "com", "example"] && stem == "SomethingSpec" && ext == "scala"
    ensures IsTestFile(DirPath(dirs, stem + "." + ext))
  {
    IsTestFileOfDirPath(dirs, stem, ext);
  }

  /** `src/test/scala/com/example/SomethingSuite.scala` is a test file. */
  lemma DetectsScalaScalatestSuiteFiles(dirs: seq<string>, stem: string, ext: string)
    requires dirs == ["src", "test", "scala", "com", "example"] && stem == "SomethingSuite" && ext == "scala"
    ensures IsTestFile(DirPath(dirs, stem + "." + ext))
  {
    IsTestFileOfDirPath(dirs, stem, ext);
  }

  /** `src/main/scala/com/example/Something.scala` is not a test file. */
  lemma DoesNotDetectScalaImplementationFiles(dirs: seq<string>, stem: string, ext: string)
    requires dirs == ["src", "main", "scala", "com", "example"] && stem == "Something" && ext == "scala"
    ensures !IsTestFile(DirPath(dirs, stem + "." + ext))
  {
    IsTestFileOfDirPath(dirs, stem, ext);
  }
}
