/** Path cleansing (src/alt/path/utils/mod.rs). */
module PathUtils {

  import opened Wrappers

  /**
   * `cleanse_path`: a path longer than one byte whose first two bytes are
   * `./` loses them; every other path comes back unchanged.
   */
  function CleansePath(path: string): string {
    if |path| > 1 && path[..2] == "./" then path[2..] else path
  }

  /**
   * The result is the input or the input minus a leading `./`, and the
   * prefix goes exactly when the path is longer than one byte and opens with it.
   */
  lemma CleansePathShape(path: string)
    ensures var r := CleansePath(path);
      (path == r || path == "./" + r) && (path == "./" + r <==> |path| > 1 && path[..2] == "./")
  {
    var r := CleansePath(path);
    if |path| > 1 && path[..2] == "./" {
      assert path == path[..2] + path[2..];
    }
  }

  /** The result is a suffix of the input, shorter by two bytes or not at all. */
  lemma CleanseIsSuffix(path: string)
    ensures var r := CleansePath(path);
      (|r| == |path| || |r| == |path| - 2) && r == path[|path| - |r|..]
  {
    var r := CleansePath(path);
    if path == "./" + r { assert path[2..] == r; }
  }

  /** Prefixing `./` and cleansing gives the path back. */
  lemma CleanseUndoesDotSlash(p: string)
    ensures CleansePath("./" + p) == p
  {
    assert ("./" + p)[..2] == "./";
    assert ("./" + p)[2..] == p;
  }

  /** Paths of at most one byte, and paths not starting with `./`, are left alone. */
  lemma CleanseKeepsOtherPaths(path: string)
    requires |path| <= 1 || path[..2] != "./"
    ensures CleansePath(path) == path
  {
  }

  /** Only one prefix is removed, so cleansing is not idempotent. */
  lemma CleanseStripsOnlyOnePrefix()
    ensures CleansePath("././a") == "./a"
    ensures CleansePath(CleansePath("././a")) != CleansePath("././a")
  {
    assert "././a"[..2] == "./";
    assert "././a"[2..] == "./a";
    assert "./a"[..2] == "./";
    assert "./a"[2..] == "a";
  }

  lemma CleanseExamples()
    ensures CleansePath("./hoopty/doopty.thing") == "hoopty/doopty.thing"
    ensures CleansePath("foo/hoopty/doopty.thing") == "foo/hoopty/doopty.thing"
  {
    CleanseUndoesDotSlash("hoopty/doopty.thing");
    var other := "foo/hoopty/doopty.thing";
    assert other[0] == 'f';
    assert other[..2][0] == other[0];
  }

  /** A UTF-8 continuation byte, `0x80` to `0xBF`: no character starts there. */
  predicate IsContinuationByte(c: char) {
    '\U{80}' <= c <= '\U{BF}'
  }

  /** Byte `i` of `s` is a character boundary: the end, or not a continuation byte. */
  predicate IsCharBoundary(s: string, i: nat)
    requires i <= |s|
  {
    i == |s| || !IsContinuationByte(s[i])
  }

  /**
   * `cleanse_path` as written: the slice `s[0..2]` is taken for every path
   * longer than one byte, and slicing a `str` off a character boundary panics.
   */
  function CleansePathAsWritten(path: string): Outcome<string> {
    if |path| > 1 && !IsCharBoundary(path, 2) then Panicked
    else if |path| > 1 && path[..2] == "./" then Returned(path[2..])
    else Returned(path)
  }

  /** The first character of `path` is cut by the slice at byte 2. */
  predicate SplitsFirstCharacters(path: string) {
    |path| > 2 && IsContinuationByte(path[2])
  }

  /**
   * As written, `cleanse_path` panics exactly when byte 2 is inside a
   * character; otherwise it returns what `CleansePath` does.
   */
  lemma CleansePathAsWrittenPanics(path: string)
    ensures CleansePathAsWritten(path).Panicked? <==> SplitsFirstCharacters(path)
    ensures !SplitsFirstCharacters(path) ==> CleansePathAsWritten(path) == Returned(CleansePath(path))
  {
  }

  /** `aé.rs`: `é` is the two bytes `C3 A9`, and byte 2 is the `A9`. */
  lemma CleansePathPanicsInsideCharacter()
    ensures CleansePathAsWritten("a\U{C3}\U{A9}.rs") == Panicked
    ensures CleansePath("a\U{C3}\U{A9}.rs") == "a\U{C3}\U{A9}.rs"
  {
    var p := "a\U{C3}\U{A9}.rs";
    assert p[2] == '\U{A9}';
    assert p[..2] != "./" by { assert p[0] == 'a'; }
  }
}
