/**
 * The file names of the unit tests in src/alt/path/alteration/mod.rs, run
 * through `StripTestWords`.
 */
module AlterationExamples {
  import opened Strings
  import opened Alteration

  /**
   * `head + tail + marker + "." + ext`, with word-only pieces, no `test_`
   * in front and `tail` covering the end of the core, loses its marker
   * and its extension.
   */
  lemma StripsMarker(name: string, core: string, head: string, tail: string, marker: string, ext: string)
    requires core == head + tail && name == core + (marker + "." + ext)
    requires head != "" && AllWord(head) && AllWord(tail) && ext != "" && AllWord(ext) && MarkerOrEmpty(marker)
    requires NoMarkerInitial(tail) && (|head| == 1 || |tail| >= 10)
    requires head[0] != 't' || (|head| >= 5 && head[..5] != "test_")
    ensures StripTestWords(name) == core
  {
    var w := head + tail + marker;
    assert AllWord(w) by {
      if marker != "" {
        MarkersShape(marker);
      }
      AllWordSplit(w, |head + tail|);
      assert w[..|head + tail|] == head + tail && w[|head + tail|..] == marker;
      AllWordSplit(head + tail, |head|);
      assert (head + tail)[..|head|] == head && (head + tail)[|head|..] == tail;
    }
    assert w[0] == head[0];
    assert |head| >= 5 ==> w[..5] == head[..5];
    ConcatAssociative(core, marker + ".", ext);
    ConcatAssociative(core, marker, ".");
    StripTestWordsOfFileName(w, ext);
    assert DropTestPrefix(w) == w;
    MarkerCutOfMarked(head, tail, marker);
  }

  lemma GroovySpecWords()
    ensures AllWord("VehicleAttribu") && AllWord("tesVehicle") && AllWord("groovy") && NoMarkerInitial("tesVehicle")
  {
  }

  /** `VehicleAttributesVehicleSpec.groovy` becomes `VehicleAttributesVehicle`. */
  lemma GroovySpec(name: string, core: string)
    requires core == "VehicleAttributesVehicle" && name == core + "Spec.groovy"
    ensures StripTestWords(name) == core
  {
    var head, tail, marker, ext := "VehicleAttribu", "tesVehicle", "Spec", "groovy";
    GroovySpecWords();
    assert "Spec.groovy" == marker + "." + ext;
    assert core == head + tail;
    InListAt(Markers, 10);
    assert Markers[10] == marker;
    assert name == core + (marker + "." + ext);
    assert head != "" && ext != "" && MarkerOrEmpty(marker) && (|head| == 1 || |tail| >= 10);
    StripsMarker(name, core, head, tail, marker, ext);
  }

  /** The word pieces shared by the four Swift fixtures, all named `VehicleAttributesVehicle*.swift`. */
  lemma SwiftVehicleWords()
    ensures AllWord("VehicleAttribu") && AllWord("tesVehicle") && AllWord("swift") && NoMarkerInitial("tesVehicle")
  {
  }

  /** `VehicleAttributesVehicleTests.swift` becomes `VehicleAttributesVehicle`. */
  lemma SwiftXCTest(name: string, core: string)
    requires core == "VehicleAttributesVehicle" && name == core + "Tests.swift"
    ensures StripTestWords(name) == core
  {
    var head, tail, marker, ext := "VehicleAttribu", "tesVehicle", "Tests", "swift";
    SwiftVehicleWords();
    assert "Tests.swift" == marker + "." + ext;
    assert core == head + tail;
    InListAt(Markers, 5);
    assert Markers[5] == marker;
    assert name == core + (marker + "." + ext);
    assert head != "" && ext != "" && MarkerOrEmpty(marker) && (|head| == 1 || |tail| >= 10);
    StripsMarker(name, core, head, tail, marker, ext);
  }

  /** `VehicleAttributesVehicleUITests.swift` becomes `VehicleAttributesVehicle`. */
  lemma SwiftXCUITest(name: string, core: string)
    requires core == "VehicleAttributesVehicle" && name == core + "UITests.swift"
    ensures StripTestWords(name) == core
  {
    var head, tail, marker, ext := "VehicleAttribu", "tesVehicle", "UITests", "swift";
    SwiftVehicleWords();
    assert "UITests.swift" == marker + "." + ext;
    assert core == head + tail;
    InListAt(Markers, 6);
    assert Markers[6] == marker;
    assert name == core + (marker + "." + ext);
    assert head != "" && ext != "" && MarkerOrEmpty(marker) && (|head| == 1 || |tail| >= 10);
    StripsMarker(name, core, head, tail, marker, ext);
  }

  /** `VehicleAttributesVehicleSpecs.swift` becomes `VehicleAttributesVehicle`. */
  lemma SwiftQuick(name: string, core: string)
    requires core == "VehicleAttributesVehicle" && name == core + "Specs.swift"
    ensures StripTestWords(name) == core
  {
    var head, tail, marker, ext := "VehicleAttribu", "tesVehicle", "Specs", "swift";
    SwiftVehicleWords();
    assert "Specs.swift" == marker + "." + ext;
    assert core == head + tail;
    InListAt(Markers, 7);
    assert Markers[7] == marker;
    assert name == core + (marker + "." + ext);
    assert head != "" && ext != "" && MarkerOrEmpty(marker) && (|head| == 1 || |tail| >= 10);
    StripsMarker(name, core, head, tail, marker, ext);
  }

  /** `VehicleAttributesVehicleUISpecs.swift` becomes `VehicleAttributesVehicle`. */
  lemma SwiftQuickUI(name: string, core: string)
    requires core == "VehicleAttributesVehicle" && name == core + "UISpecs.swift"
    ensures StripTestWords(name) == core
  {
    var head, tail, marker, ext := "VehicleAttribu", "tesVehicle", "UISpecs", "swift";
    SwiftVehicleWords();
    assert "UISpecs.swift" == marker + "." + ext;
    assert core == head + tail;
    InListAt(Markers, 8);
    assert Markers[8] == marker;
    assert name == core + (marker + "." + ext);
    assert head != "" && ext != "" && MarkerOrEmpty(marker) && (|head| == 1 || |tail| >= 10);
    StripsMarker(name, core, head, tail, marker, ext);
  }

  lemma RubyRSpecWords()
    ensures AllWord("c") && AllWord("reate") && AllWord("rb") && NoMarkerInitial("reate")
  {
  }

  /** `create_spec.rb` becomes `create`. */
  lemma RubyRSpec(name: string, core: string)
    requires core == "create" && name == core + "_spec.rb"
    ensures StripTestWords(name) == core
  {
    var head, tail, marker, ext := "c", "reate", "_spec", "rb";
    RubyRSpecWords();
    assert "_spec.rb" == marker + "." + ext;
    assert core == head + tail;
    InListAt(Markers, 1);
    assert Markers[1] == marker;
    assert name == core + (marker + "." + ext);
    assert head != "" && ext != "" && MarkerOrEmpty(marker) && (|head| == 1 || |tail| >= 10);
    StripsMarker(name, core, head, tail, marker, ext);
  }

  /** The word pieces shared by the two Rake fixtures, `foo_rake_spec.rb` and `foo_rake_test.rb`. */
  lemma RakeFooWords()
    ensures AllWord("f") && AllWord("oo") && AllWord("rb") && NoMarkerInitial("oo")
  {
  }

  /** `foo_rake_spec.rb` becomes `foo`. */
  lemma RakeRSpec(name: string, core: string)
    requires core == "foo" && name == core + "_rake_spec.rb"
    ensures StripTestWords(name) == core
  {
    var head, tail, marker, ext := "f", "oo", "_rake_spec", "rb";
    RakeFooWords();
    assert "_rake_spec.rb" == marker + "." + ext;
    assert core == head + tail;
    InListAt(Markers, 0);
    assert Markers[0] == marker;
    assert name == core + (marker + "." + ext);
    assert head != "" && ext != "" && MarkerOrEmpty(marker) && (|head| == 1 || |tail| >= 10);
    StripsMarker(name, core, head, tail, marker, ext);
  }

  lemma RubyCucumberWords()
    ensures AllWord("project_") && AllWord("management") && AllWord("rb") && NoMarkerInitial("management")
  {
  }

  /** `project_management_steps.rb` becomes `project_management`. */
  lemma RubyCucumber(name: string, core: string)
    requires core == "project_management" && name == core + "_steps.rb"
    ensures StripTestWords(name) == core
  {
    var head, tail, marker, ext := "project_", "management", "_steps", "rb";
    RubyCucumberWords();
    assert "_steps.rb" == marker + "." + ext;
    assert core == head + tail;
    InListAt(Markers, 4);
    assert Markers[4] == marker;
    assert name == core + (marker + "." + ext);
    assert head != "" && ext != "" && MarkerOrEmpty(marker) && (|head| == 1 || |tail| >= 10);
    StripsMarker(name, core, head, tail, marker, ext);
  }

  lemma RubyMinitestWords()
    ensures AllWord("tasks_") && AllWord("controller") && AllWord("rb") && NoMarkerInitial("controller")
  {
  }

  /** `tasks_controller_test.rb` becomes `tasks_controller`. */
  lemma RubyMinitest(name: string, core: string)
    requires core == "tasks_controller" && name == core + "_test.rb"
    ensures StripTestWords(name) == core
  {
    var head, tail, marker, ext := "tasks_", "controller", "_test", "rb";
    RubyMinitestWords();
    assert "_test.rb" == marker + "." + ext;
    assert core == head + tail;
    InListAt(Markers, 3);
    assert Markers[3] == marker;
    assert head[..5][1] != "test_"[1];
    assert name == core + (marker + "." + ext);
    assert head != "" && ext != "" && MarkerOrEmpty(marker) && (|head| == 1 || |tail| >= 10);
    StripsMarker(name, core, head, tail, marker, ext);
  }

  /** `foo_rake_test.rb` becomes `foo`. */
  lemma RakeMinitest(name: string, core: string)
    requires core == "foo" && name == core + "_rake_test.rb"
    ensures StripTestWords(name) == core
  {
    var head, tail, marker, ext := "f", "oo", "_rake_test", "rb";
    RakeFooWords();
    assert "_rake_test.rb" == marker + "." + ext;
    assert core == head + tail;
    InListAt(Markers, 2);
    assert Markers[2] == marker;
    assert name == core + (marker + "." + ext);
    assert head != "" && ext != "" && MarkerOrEmpty(marker) && (|head| == 1 || |tail| >= 10);
    StripsMarker(name, core, head, tail, marker, ext);
  }

  lemma ElixirExUnitWords()
    ensures AllWord("s") && AllWord("upervisor") && AllWord("exs") && NoMarkerInitial("upervisor")
  {
  }

  /** `supervisor_test.exs` becomes `supervisor`. */
  lemma ElixirExUnit(name: string, core: string)
    requires core == "supervisor" && name == core + "_test.exs"
    ensures StripTestWords(name) == core
  {
    var head, tail, marker, ext := "s", "upervisor", "_test", "exs";
    ElixirExUnitWords();
    assert "_test.exs" == marker + "." + ext;
    assert core == head + tail;
    InListAt(Markers, 3);
    assert Markers[3] == marker;
    assert name == core + (marker + "." + ext);
    assert head != "" && ext != "" && MarkerOrEmpty(marker) && (|head| == 1 || |tail| >= 10);
    StripsMarker(name, core, head, tail, marker, ext);
  }

  lemma JasmineSpecWords()
    ensures AllWord("j") && AllWord("acked") && AllWord("js") && NoMarkerInitial("acked")
  {
  }

  /** `jacked_spec.js` becomes `jacked`. */
  lemma JasmineSpec(name: string, core: string)
    requires core == "jacked" && name == core + "_spec.js"
    ensures StripTestWords(name) == core
  {
    var head, tail, marker, ext := "j", "acked", "_spec", "js";
    JasmineSpecWords();
    assert "_spec.js" == marker + "." + ext;
    assert core == head + tail;
    InListAt(Markers, 1);
    assert Markers[1] == marker;
    assert name == core + (marker + "." + ext);
    assert head != "" && ext != "" && MarkerOrEmpty(marker) && (|head| == 1 || |tail| >= 10);
    StripsMarker(name, core, head, tail, marker, ext);
  }

  lemma JUnitTestWords()
    ensures AllWord("S") && AllWord("omething") && AllWord("java") && NoMarkerInitial("omething")
  {
  }

  /** `SomethingTest.java` becomes `Something`. */
  lemma JUnitTest(name: string, core: string)
    requires core == "Something" && name == core + "Test.java"
    ensures StripTestWords(name) == core
  {
    var head, tail, marker, ext := "S", "omething", "Test", "java";
    JUnitTestWords();
    assert "Test.java" == marker + "." + ext;
    assert core == head + tail;
    InListAt(Markers, 9);
    assert Markers[9] == marker;
    assert name == core + (marker + "." + ext);
    assert head != "" && ext != "" && MarkerOrEmpty(marker) && (|head| == 1 || |tail| >= 10);
    StripsMarker(name, core, head, tail, marker, ext);
  }

  /** The word pieces shared by the three Scala fixtures, all named `Something*.scala`. */
  lemma ScalaSomethingWords()
    ensures AllWord("S") && AllWord("omething") && AllWord("scala") && NoMarkerInitial("omething")
  {
  }

  /** `SomethingTest.scala` becomes `Something`. */
  lemma ScalaTest(name: string, core: string)
    requires core == "Something" && name == core + "Test.scala"
    ensures StripTestWords(name) == core
  {
    var head, tail, marker, ext := "S", "omething", "Test", "scala";
    ScalaSomethingWords();
    assert "Test.scala" == marker + "." + ext;
    assert core == head + tail;
    InListAt(Markers, 9);
    assert Markers[9] == marker;
    assert name == core + (marker + "." + ext);
    assert head != "" && ext != "" && MarkerOrEmpty(marker) && (|head| == 1 || |tail| >= 10);
    StripsMarker(name, core, head, tail, marker, ext);
  }

  /** `SomethingSpec.scala` becomes `Something`. */
  lemma ScalaSpec(name: string, core: string)
    requires core == "Something" && name == core + "Spec.scala"
    ensures StripTestWords(name) == core
  {
    var head, tail, marker, ext := "S", "omething", "Spec", "scala";
    ScalaSomethingWords();
    assert "Spec.scala" == marker + "." + ext;
    assert core == head + tail;
    InListAt(Markers, 10);
    assert Markers[10] == marker;
    assert name == core + (marker + "." + ext);
    assert head != "" && ext != "" && MarkerOrEmpty(marker) && (|head| == 1 || |tail| >= 10);
    StripsMarker(name, core, head, tail, marker, ext);
  }

  /** `SomethingSuite.scala` becomes `Something`. */
  lemma ScalaSuite(name: string, core: string)
    requires core == "Something" && name == core + "Suite.scala"
    ensures StripTestWords(name) == core
  {
    var head, tail, marker, ext := "S", "omething", "Suite", "scala";
    ScalaSomethingWords();
    assert "Suite.scala" == marker + "." + ext;
    assert core == head + tail;
    InListAt(Markers, 11);
    assert Markers[11] == marker;
    assert name == core + (marker + "." + ext);
    assert head != "" && ext != "" && MarkerOrEmpty(marker) && (|head| == 1 || |tail| >= 10);
    StripsMarker(name, core, head, tail, marker, ext);
  }

  lemma PythonTestWords()
    ensures AllWord("toaster") && AllWord("py") && NoMarkerInitial("oaster")
  {
  }

  /** `test_toaster.py` becomes `toaster`: a leading `test_` goes with the extension. */
  lemma PythonTest(name: string, core: string)
    requires core == "toaster" && name == "test_" + core + ".py"
    ensures StripTestWords(name) == core
  {
    var head, tail, ext := "t", "oaster", "py";
    PythonTestWords();
    assert core == head + tail + "";
    assert ".py" == "." + ext;
    assert name == "test_" + core + "." + ext by {
      ConcatAssociative("test_" + core, ".", ext);
    }
    StripTestWordsDropsTestPrefix(core, ext);
    MarkerCutOfMarked(head, tail, "");
  }
}
