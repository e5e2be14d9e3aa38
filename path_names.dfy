/**
 * The two `std::path::Path` queries the scorer uses, `file_stem` and
 * `parent`, for `/`-separated paths whose components are non-empty and
 * not `.` (see README for what that leaves out).
 */
module PathNames {
  import opened Wrappers
  import opened Strings

  /** The last component: everything after the last `/`. */
  function LastComponent(path: string): (r: string)
    ensures '/' !in r
    ensures EndsWith(path, r)
    ensures |r| < |path| ==> path[|path| - |r| - 1] == '/'
  {
    path[LastIndexOf(path, '/') + 1..]
  }

  /** `Path::file_name`: the last component, unless it is empty or `..`. */
  function FileName(path: string): (r: Option<string>)
    ensures r.Some? ==> r.value == LastComponent(path) && r.value != "" && r.value != ".."
    ensures r.None? ==> LastComponent(path) in {"", ".."}
  {
    var last := LastComponent(path);
    if last == "" || last == ".." then None else Some(last)
  }

  /**
   * The stem of a file name: the part before its last `.`, unless that dot
   * is the first byte (`.x` keeps its dot) or there is none.
   */
  function StemOf(name: string): (r: string)
    ensures StartsWith(name, r)
    ensures name != "" ==> r != ""
    ensures r == name || (|r| < |name| && name[|r|] == '.' && '.' !in name[|r| + 1..])
  {
    var d := LastIndexOf(name, '.');
    if d <= 0 then name else name[..d]
  }

  /** `Path::file_stem`. */
  function FileStem(path: string): (r: Option<string>)
    ensures r.Some? <==> FileName(path).Some?
    ensures r.Some? ==> r.value != "" && StartsWith(FileName(path).value, r.value)
  {
    match FileName(path)
    case None => None
    case Some(name) => Some(StemOf(name))
  }

  /**
   * `Path::parent`: `None` for the empty path and the root; otherwise the
   * text before the last `/` (`/` itself when that slash is the root, and
   * the empty path for a bare name).
   */
  function Parent(path: string): (r: Option<string>)
    ensures r.None? <==> path == "" || path == "/"
    ensures r.Some? && '/' !in path ==> r.value == ""
    ensures r.Some? && r.value != "" ==> StartsWith(path, r.value)
  {
    if path == "" || path == "/" then None
    else
      var k := LastIndexOf(path, '/');
      if k < 0 then Some("")
      else if k == 0 then Some("/")
      else Some(path[..k])
  }

  /** Whenever a path has a stem it has a parent. */
  lemma StemImpliesParent(path: string)
    requires FileStem(path).Some?
    ensures Parent(path).Some?
  {
  }

  /** The four stemless paths the scorer's tests use. */
  lemma StemlessPaths()
    ensures FileStem("") == None && FileStem("/") == None
    ensures FileStem("..") == None && FileStem("/..") == None
  {
    RootHasNoStem("/");
    UpHasNoStem("..");
    RootUpHasNoStem("/..");
  }

  /** The root `/` has an empty last component, hence no stem. */
  lemma RootHasNoStem(root: string)
    requires root == "/"
    ensures FileStem(root) == None
  {
    assert root[0] == '/';
    assert LastIndexOf(root, '/') == 0;
    assert LastComponent(root) == [];
  }

  /** `..` is its own last component, which has no stem. */
  lemma UpHasNoStem(up: string)
    requires up == ".."
    ensures FileStem(up) == None
  {
    assert up[0] != '/' && up[1] != '/';
    assert LastIndexOf(up, '/') == -1;
    assert LastComponent(up) == up;
  }

  /** `/..` ends in the component `..`, which has no stem. */
  lemma RootUpHasNoStem(rootUp: string)
    requires rootUp == "/.."
    ensures FileStem(rootUp) == None
  {
    assert rootUp[0] == '/' && rootUp[1] != '/' && rootUp[2] != '/';
    assert LastIndexOf(rootUp, '/') == 0;
    assert rootUp[1..] == "..";
    assert LastComponent(rootUp) == "..";
  }

  /** `dir/name` with a slash-free, non-empty name other than `..`. */
  lemma SplitAtLastSlash(dir: string, name: string)
    requires '/' !in name && name != "" && name != ".."
    ensures FileName(dir + "/" + name) == Some(name)
    ensures Parent(dir + "/" + name) == Some(if dir == "" then "/" else dir)
  {
    var p := dir + "/" + name;
    assert p[|dir|] == '/';
    assert forall k :: |dir| < k < |p| ==> p[k] == name[k - |dir| - 1];
    assert LastIndexOf(p, '/') == |dir|;
    assert p[|dir| + 1..] == name;
    assert p[..|dir|] == dir;
  }

  /** The stem of `base.ext` when `ext` holds no dot and `base` is not empty. */
  lemma StemAtLastDot(base: string, ext: string)
    requires '.' !in ext && base != ""
    ensures StemOf(base + "." + ext) == base
  {
    var n := base + "." + ext;
    assert n[|base|] == '.';
    assert forall k :: |base| < k < |n| ==> n[k] == ext[k - |base| - 1];
    assert LastIndexOf(n, '.') == |base|;
    assert n[..|base|] == base;
  }
}
