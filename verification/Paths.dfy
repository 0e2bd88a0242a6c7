/** Virtual paths: `split_path` of src/paths.rs and its inverse. */
module Paths {

  /** Position of the last slash, -1 if there is none (`rfind`). */
  function LastSlash(path: string): (i: int)
    ensures -1 <= i < |path|
    ensures i >= 0 ==> path[i] == '/'
    ensures forall k :: i < k < |path| ==> path[k] != '/'
  {
    if path == "" then -1
    else if path[|path| - 1] == '/' then |path| - 1
    else LastSlash(path[..|path| - 1])
  }

  /** The parent directory and the name of a path. */
  function SplitPath(path: string): (string, string) {
    if path == "/" then ("", "")
    else
      var i := LastSlash(path);
      if i == 0 then ("/", path[1..])
      else if i > 0 then (path[..i], path[i + 1..])
      else ("", path)
  }

  /** The path of an entry of a directory. */
  function Join(dir: string, name: string): string {
    if dir == "/" then "/" + name else dir + "/" + name
  }

  lemma {:induction false} LastSlashIs(dir: string, name: string)
    requires '/' !in name
    ensures LastSlash(dir + "/" + name) == |dir|
  {
    var path := dir + "/" + name;
    if name != "" {
      LastSlashIs(dir, name[..|name| - 1]);
      assert path[..|path| - 1] == dir + "/" + name[..|name| - 1];
    }
  }

  lemma {:induction false} SplitNameHasNoSlash(path: string)
    ensures '/' !in SplitPath(path).1
  {
  }

  /** Splitting undoes joining exactly for slash-free names, under a directory that is not empty; the empty
      pair stands for the root, and the root has no entry with an empty name. */
  lemma {:induction false} SplitUndoesJoinIff(dir: string, name: string)
    ensures SplitPath(Join(dir, name)) == (dir, name) <==>
            '/' !in name && if dir == "" then name == "" else !(dir == "/" && name == "")
  {
    var path := Join(dir, name);
    SplitNameHasNoSlash(path);
    if '/' !in name {
      if dir == "/" {
        LastSlashIs("", name);
        assert "" + "/" + name == path;
      } else {
        LastSlashIs(dir, name);
        assert path[|dir| + 1..] == name && path[..|dir|] == dir;
      }
    }
  }

  /** Joining undoes splitting exactly for the paths with a slash that are not a slash-free name behind two
      slashes; a path without a slash is a name under no directory. */
  lemma {:induction false} JoinUndoesSplitIff(path: string)
    ensures var (dir, name) := SplitPath(path);
      Join(dir, name) == path <==> '/' in path && !(LastSlash(path) == 1 && path[0] == '/')
    ensures '/' !in path ==> SplitPath(path) == ("", path)
  {
    var i := LastSlash(path);
    if path != "/" && i < 0 {
      assert |Join("", path)| == |path| + 1;
    } else if path != "/" {
      JoinOfSplit(path);
    }
  }

  lemma {:induction false} JoinOfSplit(path: string)
    requires path != "/" && LastSlash(path) >= 0
    ensures var (dir, name) := SplitPath(path);
      Join(dir, name) == path <==> !(LastSlash(path) == 1 && path[0] == '/')
  {
    var i := LastSlash(path);
    if i == 0 {
      assert path == "/" + path[1..];
    } else {
      var dir, name := path[..i], path[i + 1..];
      assert path == dir + "/" + name;
      assert dir == "/" <==> i == 1 && path[0] == '/';
      assert dir == "/" ==> |Join(dir, name)| == |path| - 1;
    }
  }

  /** A path whose parent is not empty is its parts joined, or a name behind two slashes. */
  lemma {:induction false} PathOfSplit(path: string)
    requires path != "/" && SplitPath(path).0 != ""
    ensures var (dir, name) := SplitPath(path);
      path == Join(dir, name) || (dir == "/" && path == "//" + name)
  {
    var i := LastSlash(path);
    if i == 0 {
      assert path == "/" + path[1..];
    } else {
      assert path == path[..i] + "/" + path[i + 1..];
      assert path[..i] == "/" ==> "/" + "/" == "//";
    }
  }
}
