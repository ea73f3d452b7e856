/** Paths as the standard library of the source cuts them: directories, last components, stems. */
module Paths {
  import opened Options

  /** Paths are Unicode text; components are separated by slashes. */
  type Path = string

  function Join(dir: Path, name: string): Path {
    if dir == "" || dir[|dir| - 1] == '/' then dir + name else dir + "/" + name
  }

  /** Where the last component starts. */
  function LastStart(path: Path): (i: nat)
    ensures i <= |path|
    ensures i > 0 ==> path[i - 1] == '/'
    ensures forall k :: i <= k < |path| ==> path[k] != '/'
  {
    if path == "" then 0
    else if path[|path| - 1] == '/' then |path|
    else LastStart(path[..|path| - 1])
  }

  /** Trailing slashes and dots are skipped; a path that ends in `..` or in the root has no file name. */
  function FileName(path: Path): Option<string> {
    var i := LastStart(path);
    var last := path[i..];
    if last == "" || last == "." then if i == 0 then None else FileName(path[..i - 1])
    else if last == ".." then None
    else Some(last)
  }

  /** The position of the last dot. */
  function LastDot(name: string): (r: Option<nat>)
    ensures r.Some? ==> r.value < |name| && name[r.value] == '.'
  {
    if name == "" then None
    else if name[|name| - 1] == '.' then Some(|name| - 1)
    else LastDot(name[..|name| - 1])
  }

  /** The file name without its last extension; a leading dot does not start an extension. */
  function FileStem(path: Path): Option<string> {
    match FileName(path)
    case None => None
    case Some(name) =>
      match LastDot(name)
      case None => Some(name)
      case Some(k) => if k == 0 then Some(name) else Some(name[..k])
  }

  /** What a directory listing can show: a single component other than the two special ones. */
  predicate IsEntryName(name: string) {
    name != "" && name != "." && name != ".." && '/' !in name
  }

  lemma LastStartIs(path: Path, i: nat)
    requires i <= |path| && (i > 0 ==> path[i - 1] == '/')
    requires forall k :: i <= k < |path| ==> path[k] != '/'
    ensures LastStart(path) == i
  {
  }

  /** The file name of a directory entry is the name it is listed under, and so its stem can be read. */
  lemma JoinedName(dir: Path, name: string)
    requires IsEntryName(name)
    ensures FileName(Join(dir, name)) == Some(name)
    ensures FileStem(Join(dir, name)).Some?
  {
    var path := Join(dir, name);
    var i := |path| - |name|;
    assert path[i..] == name;
    forall k | i <= k < |path|
      ensures path[k] != '/'
    {
      assert name[k - i] in name;
    }
    LastStartIs(path, i);
  }

  lemma {:induction false} LastDotOf(stem: string, extension: string)
    requires '.' !in extension
    ensures LastDot(stem + "." + extension) == Some(|stem|)
  {
    var name := stem + "." + extension;
    if extension == "" {
      assert name[|name| - 1] == '.';
    } else {
      var n := |extension| - 1;
      assert extension[n] in extension;
      assert name[|name| - 1] == extension[n];
      assert name[..|name| - 1] == stem + "." + extension[..n];
      LastDotOf(stem, extension[..n]);
    }
  }

  /** The stem of a joined file name with an extension. */
  lemma JoinedStem(dir: Path, stem: string, extension: string)
    requires stem != "" && '/' !in stem && '/' !in extension && '.' !in extension && extension != ""
    ensures FileStem(Join(dir, stem + "." + extension)) == Some(stem)
  {
    var name := stem + "." + extension;
    assert |name| >= 3;
    JoinedName(dir, name);
    LastDotOf(stem, extension);
    assert name[..|stem|] == stem;
  }

  /** A slash or a dot at the end of a path changes nothing; behind two dots there is no name. */
  lemma EndsWithoutName(dir: Path)
    ensures FileName(dir + "/") == FileName(dir)
    ensures dir != "" ==> FileName(dir + "/.") == FileName(dir)
    ensures FileName(dir + "/..") == None && FileStem(dir + "/..") == None
    ensures FileName("") == None && FileName("/") == None
  {
    LastStartIs(dir + "/", |dir| + 1);
    assert (dir + "/")[..|dir|] == dir && (dir + "/")[|dir| + 1..] == "";
    LastStartIs(dir + "/.", |dir| + 1);
    assert (dir + "/.")[..|dir|] == dir && (dir + "/.")[|dir| + 1..] == ".";
    LastStartIs(dir + "/..", |dir| + 1);
    assert (dir + "/..")[|dir| + 1..] == "..";
  }

  /** Without a dot, or with none but the first character, the whole name is the stem. */
  lemma NoExtension(dir: Path, name: string)
    requires IsEntryName(name) && '.' !in name[1..]
    ensures FileStem(Join(dir, name)) == Some(name)
  {
    JoinedName(dir, name);
    assert forall k :: 0 < k < |name| ==> name[k] == name[1..][k - 1];
  }
}
