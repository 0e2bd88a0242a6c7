/** The directory scanner of src/scan.rs: `walk` over a local tree, and which virtual paths it emits. */
module Scanner {
  import opened Wrappers
  import opened Text
  import opened Paths
  import opened Rows

  /** A directory entry as `read_dir` and `file_type` show it.  The name is absent when its bytes are not UTF-8; an
      unreadable directory shows no children; anything that is not a directory, symbolic links included, is a
      leaf. */
  datatype Entry = Entry(name: Option<string>, kind: Kind)
  datatype Kind = Leaf | Directory(children: seq<Entry>)

  // ---------------------------------------------------------------------------------------------
  // The walk
  // ---------------------------------------------------------------------------------------------

  /** `Path::join` of a directory and an entry name */
  function LocalChild(dir: string, name: string): string {
    if dir != "" && dir[|dir| - 1] == '/' then dir + name else dir + "/" + name
  }

  /** The virtual path of a local one: the scan-root prefix is cut off and a leading slash restored. */
  function OutPath(local: string, replaceNum: nat): string {
    if |local| > replaceNum then
      var rest := local[replaceNum..];
      if rest[0] == '/' then rest else "/" + rest
    else "/"
  }

  function RowFor(path: string): Row {
    var (parent, name) := SplitPath(path);
    Row(parent, name, path)
  }

  /** The entry is emitted: its name is UTF-8 and none of the two dot entries. */
  predicate Kept(e: Entry) {
    e.name.Some? && e.name.value != "." && e.name.value != ".."
  }

  /** The rows `walk` emits for the entries of a directory, in order: each entry, then its subtree. */
  function WalkRows(dir: string, replaceNum: nat, entries: seq<Entry>): seq<Row>
    decreases entries, 0
  {
    if entries == [] then []
    else EntryRows(dir, replaceNum, entries[0]) + WalkRows(dir, replaceNum, entries[1..])
  }

  function EntryRows(dir: string, replaceNum: nat, e: Entry): seq<Row>
    decreases e, 1
  {
    if !Kept(e) then []
    else
      var child := LocalChild(dir, e.name.value);
      [RowFor(OutPath(child, replaceNum))] +
      match e.kind
      case Leaf => []
      case Directory(children) => WalkRows(child, replaceNum, children)
  }

  /** The output file. */
  class Sink {
    var text: string

    constructor ()
      ensures text == ""
    {
      text := "";
    }
  }

  lemma {:induction false} FileTextAppend(a: seq<Row>, b: seq<Row>)
    ensures FileText(a + b) == FileText(a) + FileText(b)
  {
    if a == [] {
      assert a + b == b;
    } else {
      assert (a + b)[1..] == a[1..] + b;
      FileTextAppend(a[1..], b);
    }
  }

  lemma {:induction false} WalkRowsAppend(dir: string, replaceNum: nat, a: seq<Entry>, e: Entry)
    ensures WalkRows(dir, replaceNum, a + [e]) == WalkRows(dir, replaceNum, a) + EntryRows(dir, replaceNum, e)
    decreases a
  {
    if a == [] {
      assert a + [e] == [e] && [e][1..] == [];
    } else {
      assert (a + [e])[1..] == a[1..] + [e];
      WalkRowsAppend(dir, replaceNum, a[1..], e);
    }
  }

  /** Print the row of one virtual path. */
  method EmitRow(outPath: string, out: Sink)
    modifies out
    ensures out.text == old(out.text) + FileText([RowFor(outPath)])
  {
    var (parent, basename) := SplitPath(outPath);
    var f1 := PadField(parent);
    var f2 := PadField(basename);
    var f3 := PadField(outPath);
    out.text := out.text + (f1 + GAP + f2 + GAP + f3 + "\n");
    assert FileText([RowFor(outPath)][1..]) == "";
  }

  /** `walk` as code. */
  method Walk(dir: string, replaceNum: nat, entries: seq<Entry>, out: Sink)
    modifies out
    ensures out.text == old(out.text) + FileText(WalkRows(dir, replaceNum, entries))
    decreases entries, 1
  {
    for k := 0 to |entries|
      invariant out.text == old(out.text) + FileText(WalkRows(dir, replaceNum, entries[..k]))
    {
      NextEntryText(dir, replaceNum, entries, k);
      WalkEntry(dir, replaceNum, entries[k], out);
      ConcatIsAssociative(old(out.text), FileText(WalkRows(dir, replaceNum, entries[..k])), FileText(EntryRows(dir, replaceNum, entries[k])));
    }
    assert entries[..|entries|] == entries;
  }

  /** The body of the loop of `walk`. */
  method WalkEntry(dir: string, replaceNum: nat, ent: Entry, out: Sink)
    modifies out
    ensures out.text == old(out.text) + FileText(EntryRows(dir, replaceNum, ent))
    decreases ent, 2
  {
    if ent.name.None? {
      return;
    }
    var name := ent.name.value;
    if name == "." || name == ".." {
      return;
    }
    var child := LocalChild(dir, name);
    var outPath := OutPath(child, replaceNum);
    EmitRow(outPath, out);
    EntryText(dir, replaceNum, ent);
    if ent.kind.Directory? {
      Walk(child, replaceNum, ent.kind.children, out);
      ConcatIsAssociative(old(out.text), FileText([RowFor(outPath)]), FileText(WalkRows(child, replaceNum, ent.kind.children)));
    }
  }

  /** The text of a kept entry is its own line, followed by the text of its subtree. */
  lemma {:induction false} EntryText(dir: string, replaceNum: nat, ent: Entry)
    requires Kept(ent)
    ensures var child := LocalChild(dir, ent.name.value);
      FileText(EntryRows(dir, replaceNum, ent)) ==
      FileText([RowFor(OutPath(child, replaceNum))]) +
      if ent.kind.Leaf? then "" else FileText(WalkRows(child, replaceNum, ent.kind.children))
  {
    var child := LocalChild(dir, ent.name.value);
    FileTextAppend([RowFor(OutPath(child, replaceNum))], if ent.kind.Leaf? then [] else WalkRows(child, replaceNum, ent.kind.children));
  }

  /** The text of one more entry. */
  lemma {:induction false} NextEntryText(dir: string, replaceNum: nat, entries: seq<Entry>, k: nat)
    requires k < |entries|
    ensures FileText(WalkRows(dir, replaceNum, entries[..k + 1])) ==
            FileText(WalkRows(dir, replaceNum, entries[..k])) + FileText(EntryRows(dir, replaceNum, entries[k]))
  {
    assert entries[..k + 1] == entries[..k] + [entries[k]];
    WalkRowsAppend(dir, replaceNum, entries[..k], entries[k]);
    FileTextAppend(WalkRows(dir, replaceNum, entries[..k]), EntryRows(dir, replaceNum, entries[k]));
  }

  function TrimSlashes(path: string): (r: string)
    ensures r <= path && (r != "" ==> r[|r| - 1] != '/') && forall k :: |r| <= k < |path| ==> path[k] == '/'
  {
    if path != "" && path[|path| - 1] == '/' then TrimSlashes(path[..|path| - 1]) else path
  }

  /** `scan_to_file`: trailing slashes of the scan path do not count; the root is scanned as "/". */
  method ScanToFile(scanPath: string, entries: seq<Entry>) returns (out: Sink)
    ensures fresh(out)
    ensures out.text == FileText(ScanRows(scanPath, entries))
  {
    var trimmed := TrimSlashes(scanPath);
    var replaceNum := |trimmed|;
    var root := if trimmed == "" then "/" else trimmed;
    out := new Sink();
    Walk(root, replaceNum, entries, out);
  }

  function ScanRows(scanPath: string, entries: seq<Entry>): seq<Row> {
    var trimmed := TrimSlashes(scanPath);
    WalkRows(if trimmed == "" then "/" else trimmed, |trimmed|, entries)
  }

  // ---------------------------------------------------------------------------------------------
  // Trees and virtual paths
  // ---------------------------------------------------------------------------------------------

  predicate NameOk(name: string) {
    name != "" && '/' !in name
  }

  function KeptNames(entries: seq<Entry>): seq<string> {
    if entries == [] then []
    else (if Kept(entries[0]) then [entries[0].name.value] else []) + KeptNames(entries[1..])
  }

  /** What every local tree satisfies: names of kept entries are not empty and hold no slash, and siblings differ. */
  ghost predicate TreeOk(entries: seq<Entry>)
    decreases entries, 0
  {
    && (forall k :: 0 <= k < |entries| ==> EntryOk(entries[k]))
    && (forall j, k :: 0 <= j < k < |entries| && Kept(entries[j]) && Kept(entries[k]) ==> entries[j].name != entries[k].name)
  }

  ghost predicate EntryOk(e: Entry)
    decreases e, 1
  {
    Kept(e) ==> NameOk(e.name.value) && (e.kind.Directory? ==> TreeOk(e.kind.children))
  }

  /** The tree has an entry at this path of names, all the way through kept entries. */
  ghost predicate Has(entries: seq<Entry>, names: seq<string>)
    decreases names
  {
    names != [] && exists k :: 0 <= k < |entries| && Leads(entries[k], names)
  }

  ghost predicate Leads(e: Entry, names: seq<string>)
    requires names != []
    decreases names, 0
  {
    Kept(e) && e.name.value == names[0] &&
    (|names| == 1 || (e.kind.Directory? && Has(e.kind.children, names[1..])))
  }

  /** The entries of the directory at this path of names. */
  ghost predicate IsDirAt(entries: seq<Entry>, names: seq<string>, children: seq<Entry>)
    decreases names
  {
    if names == [] then children == entries
    else exists k :: 0 <= k < |entries| && Kept(entries[k]) && entries[k].name.value == names[0] &&
                     entries[k].kind.Directory? && IsDirAt(entries[k].kind.children, names[1..], children)
  }

  /** "/" followed by the names, joined by slashes; "" for no name. */
  function VPath(names: seq<string>): string {
    if names == [] then "" else VPath(names[..|names| - 1]) + "/" + names[|names| - 1]
  }

  /** The virtual path of a directory: "/" for the root. */
  function DirPath(names: seq<string>): string {
    if names == [] then "/" else VPath(names)
  }

  function RowOf(names: seq<string>): Row
    requires names != []
  {
    Row(DirPath(names[..|names| - 1]), names[|names| - 1], VPath(names))
  }

  predicate NamesOk(names: seq<string>) {
    forall k :: 0 <= k < |names| ==> NameOk(names[k])
  }

  lemma {:induction false} SplitVPath(names: seq<string>)
    requires NamesOk(names) && names != []
    ensures VPath(names) != "/" && RowFor(VPath(names)) == RowOf(names)
  {
    var init, last := names[..|names| - 1], names[|names| - 1];
    var path := VPath(names);
    LastSlashIs(VPath(init), last);
    assert path[|VPath(init)| + 1..] == last && path[..|VPath(init)|] == VPath(init);
  }

  /** Different lists of names have different paths. */
  lemma {:induction false} VPathIsInjective(a: seq<string>, b: seq<string>)
    requires NamesOk(a) && NamesOk(b) && VPath(a) == VPath(b)
    ensures a == b
  {
    if a != [] && b != [] {
      SplitVPath(a);
      SplitVPath(b);
      var a', b' := a[..|a| - 1], b[..|b| - 1];
      DirPathNotRoot(a');
      DirPathNotRoot(b');
      assert VPath(a') == VPath(b');
      VPathIsInjective(a', b');
      assert a == a' + [a[|a| - 1]] && b == b' + [b[|b| - 1]];
    }
  }

  lemma {:induction false} DirPathNotRoot(names: seq<string>)
    requires NamesOk(names)
    ensures VPath(names) == "" <==> names == []
    ensures DirPath(names) == "/" <==> names == []
  {
    if names != [] { SplitVPath(names); }
  }

  /** The local path of a directory below a scan root that does not end in a slash. */
  function LocalDir(root: string, names: seq<string>): string {
    if root + VPath(names) == "" then "/" else root + VPath(names)
  }

  predicate RootOk(root: string) {
    root != "" ==> root[|root| - 1] != '/'
  }

  lemma {:induction false} VPathStartsWithSlash(names: seq<string>)
    requires names != []
    ensures VPath(names) != "" && VPath(names)[0] == '/'
  {
    if |names| > 1 { VPathStartsWithSlash(names[..|names| - 1]); }
  }

  /** Only one slash leads a virtual path. */
  lemma {:induction false} VPathHasOneSlashInFront(names: seq<string>)
    requires NamesOk(names) && names != []
    ensures |VPath(names)| >= 2 && VPath(names)[1] != '/'
  {
    if |names| > 1 {
      VPathHasOneSlashInFront(names[..|names| - 1]);
    } else {
      assert VPath(names) == "" + "/" + names[0];
      assert names[0][0] in names[0];
    }
  }

  /** A virtual path is its directory and its last name, joined. */
  lemma {:induction false} JoinVPath(names: seq<string>)
    requires NamesOk(names) && names != []
    ensures Join(RowOf(names).parent, RowOf(names).name) == VPath(names)
  {
    DirPathNotRoot(names[..|names| - 1]);
    assert "" + "/" == "/";
  }

  lemma {:induction false} LocalChildIs(root: string, names: seq<string>, name: string)
    requires RootOk(root) && NamesOk(names)
    ensures LocalChild(LocalDir(root, names), name) == root + VPath(names) + "/" + name
  {
    if names == [] {
      assert root + VPath(names) == root;
      assert root == "" ==> root + VPath(names) + "/" + name == "/" + name;
    } else {
      var last := names[|names| - 1];
      var dir := root + VPath(names);
      assert dir == root + VPath(names[..|names| - 1]) + "/" + last;
      assert dir[|dir| - 1] == last[|last| - 1];
    }
  }

  lemma {:induction false} OutPathIs(root: string, path: string)
    requires path != "" && path[0] == '/'
    ensures OutPath(root + path, |root|) == path
  {
    assert (root + path)[|root|..] == path;
  }

  /** One level down in the local tree is one level down in the virtual one. */
  lemma {:induction false} ChildPath(root: string, names: seq<string>, name: string)
    requires RootOk(root) && NamesOk(names) && NameOk(name)
    ensures NamesOk(names + [name])
    ensures var child := LocalChild(LocalDir(root, names), name);
      child == LocalDir(root, names + [name]) && RowFor(OutPath(child, |root|)) == RowOf(names + [name])
  {
    var all := names + [name];
    assert all[..|all| - 1] == names;
    LocalChildIs(root, names, name);
    VPathStartsWithSlash(all);
    SplitVPath(all);
    OutPathIs(root, VPath(all));
    ConcatIsAssociative(root, VPath(names), "/");
    ConcatIsAssociative(root, VPath(names) + "/", name);
  }

  /** The rows of one kept entry, in terms of virtual paths. */
  lemma {:induction false} EntryRowsAre(root: string, prefix: seq<string>, e: Entry)
    requires RootOk(root) && NamesOk(prefix) && EntryOk(e) && Kept(e)
    ensures var all := prefix + [e.name.value];
      NamesOk(all) &&
      EntryRows(LocalDir(root, prefix), |root|, e) ==
      [RowOf(all)] + if e.kind.Leaf? then [] else WalkRows(LocalDir(root, all), |root|, e.kind.children)
  {
    ChildPath(root, prefix, e.name.value);
  }

  // ---------------------------------------------------------------------------------------------
  // The walk emits exactly the kept paths
  // ---------------------------------------------------------------------------------------------

  lemma {:induction false} WalkIsSound(root: string, prefix: seq<string>, entries: seq<Entry>, row: Row) returns (names: seq<string>)
    requires RootOk(root) && NamesOk(prefix) && TreeOk(entries)
    requires row in WalkRows(LocalDir(root, prefix), |root|, entries)
    ensures Has(entries, names) && NamesOk(prefix + names) && prefix + names != [] && row == RowOf(prefix + names)
    decreases entries, 1
  {
    var e := entries[0];
    if row in EntryRows(LocalDir(root, prefix), |root|, e) {
      names := EntryIsSound(root, prefix, e, row);
      assert Leads(entries[0], names);
    } else {
      assert forall k :: 0 <= k < |entries[1..]| ==> entries[1..][k] == entries[k + 1];
      names := WalkIsSound(root, prefix, entries[1..], row);
      var k :| 0 <= k < |entries[1..]| && Leads(entries[1..][k], names);
      assert Leads(entries[k + 1], names);
    }
  }

  lemma {:induction false} EntryIsSound(root: string, prefix: seq<string>, e: Entry, row: Row) returns (names: seq<string>)
    requires RootOk(root) && NamesOk(prefix) && EntryOk(e)
    requires row in EntryRows(LocalDir(root, prefix), |root|, e)
    ensures names != [] && Leads(e, names) && NamesOk(prefix + names) && row == RowOf(prefix + names)
    decreases e, 2
  {
    assert Kept(e);
    var name := e.name.value;
    EntryRowsAre(root, prefix, e);
    if row == RowOf(prefix + [name]) {
      names := [name];
    } else {
      var rest := WalkIsSound(root, prefix + [name], e.kind.children, row);
      names := [name] + rest;
      assert names[1..] == rest;
      ConcatIsAssociative(prefix, [name], rest);
    }
  }

  lemma {:induction false} WalkIsComplete(root: string, prefix: seq<string>, entries: seq<Entry>, names: seq<string>)
    requires RootOk(root) && NamesOk(prefix) && TreeOk(entries) && Has(entries, names)
    ensures NamesOk(prefix + names) && RowOf(prefix + names) in WalkRows(LocalDir(root, prefix), |root|, entries)
    decreases entries, 1
  {
    var k :| 0 <= k < |entries| && Leads(entries[k], names);
    if k == 0 {
      EntryIsComplete(root, prefix, entries[0], names);
    } else {
      assert entries[1..][k - 1] == entries[k];
      assert forall j :: 0 <= j < |entries[1..]| ==> entries[1..][j] == entries[j + 1];
      WalkIsComplete(root, prefix, entries[1..], names);
    }
  }

  lemma {:induction false} EntryIsComplete(root: string, prefix: seq<string>, e: Entry, names: seq<string>)
    requires RootOk(root) && NamesOk(prefix) && EntryOk(e) && names != [] && Leads(e, names)
    ensures NamesOk(prefix + names) && RowOf(prefix + names) in EntryRows(LocalDir(root, prefix), |root|, e)
    decreases e, 2
  {
    var name := e.name.value;
    EntryRowsAre(root, prefix, e);
    if |names| == 1 {
      assert names == [name];
    } else {
      WalkIsComplete(root, prefix + [name], e.kind.children, names[1..]);
      ConcatIsAssociative(prefix, [name], names[1..]);
      assert names == [name] + names[1..];
    }
  }

  /** The rows of a scan are exactly the rows of the kept paths of the tree. */
  lemma {:induction false} ScanEmitsKeptPaths(scanPath: string, entries: seq<Entry>, row: Row)
    requires TreeOk(entries)
    ensures row in ScanRows(scanPath, entries) <==> exists names :: Has(entries, names) && NamesOk(names) && row == RowOf(names)
  {
    var root := TrimSlashes(scanPath);
    assert LocalDir(root, []) == if root == "" then "/" else root by { assert root + VPath([]) == root; }
    if row in ScanRows(scanPath, entries) {
      var names := WalkIsSound(root, [], entries, row);
      assert [] + names == names;
    }
    forall names | Has(entries, names) && NamesOk(names) && row == RowOf(names) ensures row in ScanRows(scanPath, entries) {
      WalkIsComplete(root, [], entries, names);
      assert [] + names == names;
    }
  }

  lemma {:induction false} HasNamesOk(entries: seq<Entry>, names: seq<string>)
    requires TreeOk(entries) && Has(entries, names)
    ensures NamesOk(names)
    decreases names
  {
    var k :| 0 <= k < |entries| && Leads(entries[k], names);
    assert EntryOk(entries[k]);
    if |names| > 1 {
      HasNamesOk(entries[k].kind.children, names[1..]);
      assert forall j :: 0 < j < |names| ==> names[j] == names[1..][j - 1];
    }
  }

  lemma {:induction false} HasChild(entries: seq<Entry>, dir: seq<string>, children: seq<Entry>, k: nat)
    requires IsDirAt(entries, dir, children) && k < |children| && Kept(children[k])
    ensures Has(entries, dir + [children[k].name.value])
    decreases dir
  {
    var name := children[k].name.value;
    if dir == [] {
      assert [] + [name] == [name] && Leads(entries[k], [name]);
    } else {
      var j :| 0 <= j < |entries| && Kept(entries[j]) && entries[j].name.value == dir[0] &&
               entries[j].kind.Directory? && IsDirAt(entries[j].kind.children, dir[1..], children);
      HasChild(entries[j].kind.children, dir[1..], children, k);
      assert (dir + [name])[1..] == dir[1..] + [name];
      assert Leads(entries[j], dir + [name]);
    }
  }

  /** In every directory that is reached, every entry with a UTF-8 name other than the dot entries gets its row, and if
      it is a directory it is reached too. */
  lemma {:induction false} EveryNamedEntryIsScanned(scanPath: string, entries: seq<Entry>, dir: seq<string>, children: seq<Entry>, k: nat)
    requires TreeOk(entries) && IsDirAt(entries, dir, children) && k < |children|
    requires children[k].name.Some? && children[k].name.value !in {".", ".."}
    ensures var name := children[k].name.value;
      && NamesOk(dir + [name])
      && Row(DirPath(dir), name, VPath(dir) + "/" + name) in ScanRows(scanPath, entries)
      && (children[k].kind.Directory? ==> IsDirAt(entries, dir + [name], children[k].kind.children))
  {
    var name := children[k].name.value;
    var all := dir + [name];
    HasChild(entries, dir, children, k);
    HasNamesOk(entries, all);
    ScanEmitsKeptPaths(scanPath, entries, RowOf(all));
    assert all[..|dir|] == dir;
    if children[k].kind.Directory? { DirBelow(entries, dir, children, k); }
  }

  lemma {:induction false} DirBelow(entries: seq<Entry>, dir: seq<string>, children: seq<Entry>, k: nat)
    requires IsDirAt(entries, dir, children) && k < |children| && Kept(children[k]) && children[k].kind.Directory?
    ensures IsDirAt(entries, dir + [children[k].name.value], children[k].kind.children)
    decreases dir
  {
    var name := children[k].name.value;
    if dir == [] {
      assert ([] + [name])[1..] == [];
    } else {
      var j :| 0 <= j < |entries| && Kept(entries[j]) && entries[j].name.value == dir[0] &&
               entries[j].kind.Directory? && IsDirAt(entries[j].kind.children, dir[1..], children);
      DirBelow(entries[j].kind.children, dir[1..], children, k);
      assert (dir + [name])[1..] == dir[1..] + [name];
    }
  }
}
