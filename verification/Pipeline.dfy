/** The whole whitelist pipeline: scan a tree, print it, read the file back, load it into a table, resolve and
    list.  The load loop is the one of src/bin/yourfs_tool.rs. */
module Pipeline {
  import opened Wrappers
  import opened Text
  import opened Names
  import opened Paths
  import opened Rows
  import opened Store
  import opened Scanner

  // ---------------------------------------------------------------------------------------------
  // The load loop
  // ---------------------------------------------------------------------------------------------

  /** The rows of the well-formed lines, in order. */
  function Parsed(lines: seq<string>): seq<Row> {
    if lines == [] then []
    else Parsed(lines[..|lines| - 1]) + match Parse(lines[|lines| - 1]) case Some(row) => [row] case None => []
  }

  /** The number of malformed lines that are not blank. */
  function Malformed(lines: seq<string>): nat {
    if lines == [] then 0
    else Malformed(lines[..|lines| - 1]) + if Parse(lines[|lines| - 1]).None? && !IsBlank(lines[|lines| - 1]) then 1 else 0
  }

  lemma {:induction false} NextLine(lines: seq<string>, ln: nat)
    requires ln < |lines|
    ensures Parsed(lines[..ln + 1]) == Parsed(lines[..ln]) + match Parse(lines[ln]) case Some(row) => [row] case None => []
    ensures Malformed(lines[..ln + 1]) ==
            Malformed(lines[..ln]) + if Parse(lines[ln]).None? && !IsBlank(lines[ln]) then 1 else 0
  {
    assert lines[..ln + 1][..ln] == lines[..ln];
  }

  function Blanks(lines: seq<string>): nat {
    if lines == [] then 0 else Blanks(lines[..|lines| - 1]) + if IsBlank(lines[|lines| - 1]) then 1 else 0
  }

  /** Every line is a row, or malformed, or blank, and only one of these. */
  lemma {:induction false} LinesAreAccounted(lines: seq<string>)
    ensures |Parsed(lines)| + Malformed(lines) + Blanks(lines) == |lines|
  {
    if lines == [] {
    } else {
      LinesAreAccounted(lines[..|lines| - 1]);
      BlankIsNoRow(lines[|lines| - 1]);
    }
  }

  lemma {:induction false} BlankIsNoRow(line: string)
    ensures IsBlank(line) ==> Parse(line).None?
  {
    if IsBlank(line) {
      BlanksFeed(START, line, "");
      assert line + "" == line;
    }
  }

  /** The rows of two files, one behind the other. */
  lemma {:induction false} ParsedOfTwo(a: seq<string>, b: seq<string>)
    ensures Parsed(a + b) == Parsed(a) + Parsed(b)
  {
    if b == [] {
      assert a + b == a;
    } else {
      assert (a + b)[..|a + b| - 1] == a + b[..|b| - 1];
      ParsedOfTwo(a, b[..|b| - 1]);
    }
  }

  /** A last row without a newline behind it is loaded like any other. */
  lemma {:induction false} LastRowNeedsNoNewline(text: string, row: Row)
    requires (text == "" || text[|text| - 1] == '\n') && NewlineFree(row)
    requires row.parent != "" && row.name != "" && row.realpath != ""
    ensures Parsed(Lines(text + Print(row))) == Parsed(Lines(text)) + [row]
  {
    PrintKeepsLines(row);
    LinesOfTwo(text, Print(row));
    LinesAre(Print(row), "");
    RoundTrip(row);
    ParsedOfTwo(Lines(text), [Print(row)]);
    assert [Print(row)][..0] == [];
  }

  /** Load a file into a fresh sqlite table; `written` and `skipped` are the counts the tool prints. */
  method LoadSqlite(w: SqliteWriter, table: string, text: string) returns (ok: bool, written: nat, skipped: nat)
    requires w.rows == []
    modifies w
    ensures ok <==> CheckIdent(table)
    ensures ok ==> w.tables == old(w.tables)[table := Parsed(Lines(text))] && w.rows == []
    ensures ok ==> written == |Parsed(Lines(text))| && skipped == Malformed(Lines(text))
    ensures !ok ==> w.tables == old(w.tables)
  {
    written, skipped := 0, 0;
    ok := w.Create(table);
    if !ok {
      return;
    }
    var lines := Lines(text);
    for ln := 0 to |lines|
      invariant w.table == table && w.tables == old(w.tables)[table := []]
      invariant w.rows == Parsed(lines[..ln]) && written == |w.rows| && skipped == Malformed(lines[..ln])
    {
      NextLine(lines, ln);
      var cols := ParseRow(lines[ln]);
      if cols.None? {
        if !IsBlank(lines[ln]) {
          skipped := skipped + 1;
        }
        continue;
      }
      w.Insert(cols.value);
      written := written + 1;
    }
    assert lines[..|lines|] == lines;
    ok := w.Finish();
  }

  /** Load a file into a Redis table; `replies` are the answers of the SCAN loop. */
  method LoadRedis(w: RedisWriter, table: string, text: string, replies: seq<set<string>>) returns (ok: bool)
    requires w.rows == [] && (CheckIdent(table) ==> ScanGuarantee(w.ks, table, replies))
    modifies w
    ensures ok <==> CheckIdent(table)
    ensures ok ==> exists swept ::
      Swept(swept, table) && w.ks == MirrorAll(swept, table, Parsed(Lines(text))) &&
      (forall key :: key in swept <==> key in old(w.ks) && !Matches(key, table)) &&
      (forall key :: key in swept ==> swept[key] == old(w.ks)[key])
    ensures !ok ==> w.ks == old(w.ks)
  {
    ok := w.Create(table, replies);
    if !ok {
      return;
    }
    ghost var swept := w.ks;
    var lines := Lines(text);
    for ln := 0 to |lines|
      invariant w.table == table && w.ks == swept && w.rows == Parsed(lines[..ln])
    {
      NextLine(lines, ln);
      var cols := ParseRow(lines[ln]);
      if cols.Some? {
        w.Insert(cols.value);
      }
    }
    assert lines[..|lines|] == lines;
    w.Finish();
    assert Swept(swept, table);
  }

  // ---------------------------------------------------------------------------------------------
  // What is scanned is what is loaded
  // ---------------------------------------------------------------------------------------------

  lemma {:induction false} ParsedPrints(lines: seq<string>, rows: seq<Row>)
    requires |lines| == |rows| && forall k :: 0 <= k < |rows| ==> Parse(lines[k]) == Some(rows[k])
    ensures Parsed(lines) == rows
  {
    if rows == [] {
    } else {
      ParsedPrints(lines[..|lines| - 1], rows[..|rows| - 1]);
      assert rows == rows[..|rows| - 1] + [rows[|rows| - 1]];
    }
  }

  /** No name of a kept entry contains a newline. */
  ghost predicate PlainTree(entries: seq<Entry>)
    decreases entries, 0
  {
    forall k :: 0 <= k < |entries| ==> PlainEntry(entries[k])
  }

  ghost predicate PlainEntry(e: Entry)
    decreases e, 1
  {
    Kept(e) ==> '\n' !in e.name.value && (e.kind.Directory? ==> PlainTree(e.kind.children))
  }

  predicate PlainNames(names: seq<string>) {
    forall k :: 0 <= k < |names| ==> '\n' !in names[k]
  }

  lemma {:induction false} PlainPaths(entries: seq<Entry>, names: seq<string>)
    requires PlainTree(entries) && Has(entries, names)
    ensures PlainNames(names)
    decreases names
  {
    var k :| 0 <= k < |entries| && Leads(entries[k], names);
    assert PlainEntry(entries[k]);
    if |names| > 1 {
      PlainPaths(entries[k].kind.children, names[1..]);
      assert forall j :: 0 < j < |names| ==> names[j] == names[1..][j - 1];
    }
  }

  /** A tree that is not plain has a kept path with a newline. */
  lemma {:induction false} NewlinePath(entries: seq<Entry>) returns (names: seq<string>)
    requires !PlainTree(entries)
    ensures Has(entries, names) && !PlainNames(names)
    decreases entries, 1
  {
    var k :| 0 <= k < |entries| && !PlainEntry(entries[k]);
    names := NewlinePathOf(entries[k]);
  }

  lemma {:induction false} NewlinePathOf(e: Entry) returns (names: seq<string>)
    requires !PlainEntry(e)
    ensures names != [] && Leads(e, names) && !PlainNames(names)
    decreases e, 2
  {
    if '\n' in e.name.value {
      names := [e.name.value];
    } else {
      var below := NewlinePath(e.kind.children);
      names := [e.name.value] + below;
      assert names[1..] == below;
      var j :| 0 <= j < |below| && '\n' in below[j];
      assert names[j + 1] == below[j];
    }
  }

  lemma {:induction false} VPathNewlines(names: seq<string>)
    ensures '\n' !in VPath(names) <==> PlainNames(names)
  {
    if names == [] {
    } else {
      var init, last := names[..|names| - 1], names[|names| - 1];
      VPathNewlines(init);
      assert VPath(names) == VPath(init) + "/" + last;
      assert '\n' in VPath(names) <==> '\n' in VPath(init) || '\n' in "/" || '\n' in last;
      assert PlainNames(names) <==> PlainNames(init) && '\n' !in last by {
        assert forall k :: 0 <= k < |init| ==> init[k] == names[k];
      }
    }
  }

  lemma {:induction false} RowOfIsPlain(names: seq<string>)
    requires NamesOk(names) && names != []
    ensures var row := RowOf(names); row.parent != "" && row.name != "" && row.realpath != ""
    ensures PlainNames(names) ==> NewlineFree(RowOf(names))
  {
    VPathNewlines(names);
    VPathNewlines(names[..|names| - 1]);
    VPathStartsWithSlash(names);
    DirPathNotRoot(names[..|names| - 1]);
  }

  /** Loading the scanned file gives back exactly the scanned rows, when no kept name contains a newline. */
  lemma {:induction false} LoadUndoesScan(scanPath: string, entries: seq<Entry>)
    requires TreeOk(entries) && PlainTree(entries)
    ensures Parsed(Lines(FileText(ScanRows(scanPath, entries)))) == ScanRows(scanPath, entries)
  {
    var rows := ScanRows(scanPath, entries);
    forall k | 0 <= k < |rows|
      ensures NewlineFree(rows[k]) && Parse(Print(rows[k])) == Some(rows[k])
    {
      ScanEmitsKeptPaths(scanPath, entries, rows[k]);
      var names :| Has(entries, names) && NamesOk(names) && rows[k] == RowOf(names);
      PlainPaths(entries, names);
      RowOfIsPlain(names);
      RoundTrip(rows[k]);
    }
    LinesOfFile(rows);
    ParsedPrints(Lines(FileText(rows)), rows);
  }

  // ---------------------------------------------------------------------------------------------
  // Resolving
  // ---------------------------------------------------------------------------------------------

  /** The virtual paths a tree makes visible: the root and the kept entries. */
  ghost predicate Visible(entries: seq<Entry>, path: string) {
    path == "/" || exists names :: Has(entries, names) && path == VPath(names)
  }

  /** A top-level entry written with two slashes. */
  ghost predicate DoubledTop(entries: seq<Entry>, path: string) {
    exists name :: Has(entries, [name]) && path == "//" + name
  }

  /** A path that splits like a kept one is that path, or a top-level name behind two slashes. */
  lemma {:induction false} SameSplit(path: string, names: seq<string>)
    requires NamesOk(names) && names != [] && path != "/"
    ensures SplitPath(path) == (RowOf(names).parent, RowOf(names).name) <==>
            path == VPath(names) || (|names| == 1 && path == "//" + names[0])
  {
    var last := names[|names| - 1];
    SplitVPath(names);
    JoinVPath(names);
    DirPathNotRoot(names[..|names| - 1]);
    if SplitPath(path) == (RowOf(names).parent, last) {
      PathOfSplit(path);
      assert RowOf(names).parent == "/" ==> |names| == 1;
    } else if |names| == 1 {
      SplitDoubled(last);
    }
  }

  lemma {:induction false} SplitDoubled(name: string)
    requires NameOk(name)
    ensures SplitPath("//" + name) == ("/", name)
  {
    LastSlashIs("/", name);
    assert ("/" + "/") + name == "//" + name;
    assert ("//" + name)[..1] == "/" && ("//" + name)[2..] == name;
  }

  /** Any matching row names the visible path itself. */
  lemma {:induction false} MatchIsVisible(scanPath: string, entries: seq<Entry>, path: string, row: Row) returns (names: seq<string>)
    requires TreeOk(entries) && path != "/" && row in ScanRows(scanPath, entries)
    requires var (parent, name) := SplitPath(path); IsEntry(row, parent, name)
    ensures Has(entries, names) && NamesOk(names) && row == RowOf(names)
    ensures path == VPath(names) || (|names| == 1 && path == "//" + names[0])
  {
    ScanEmitsKeptPaths(scanPath, entries, row);
    names :| Has(entries, names) && NamesOk(names) && row == RowOf(names);
    SameSplit(path, names);
  }

  lemma {:induction false} SplitIsEntry(scanPath: string, entries: seq<Entry>, path: string, names: seq<string>)
    requires TreeOk(entries) && path != "/" && Has(entries, names)
    requires path == VPath(names) || (|names| == 1 && path == "//" + names[0])
    ensures NamesOk(names) && RowOf(names) in ScanRows(scanPath, entries)
    ensures var (parent, name) := SplitPath(path); IsEntry(RowOf(names), parent, name)
  {
    HasNamesOk(entries, names);
    ScanEmitsKeptPaths(scanPath, entries, RowOf(names));
    SameSplit(path, names);
  }

  /** All rows matching a path name the same real path. */
  lemma {:induction false} MatchesAgree(scanPath: string, entries: seq<Entry>, path: string, a: Row, b: Row)
    requires TreeOk(entries) && path != "/" && a in ScanRows(scanPath, entries) && b in ScanRows(scanPath, entries)
    requires var (parent, name) := SplitPath(path); IsEntry(a, parent, name) && IsEntry(b, parent, name)
    ensures a == b
  {
    var na := MatchIsVisible(scanPath, entries, path, a);
    var nb := MatchIsVisible(scanPath, entries, path, b);
    DirPathIsInjective(na[..|na| - 1], nb[..|nb| - 1]);
    assert na == na[..|na| - 1] + [na[|na| - 1]] && nb == nb[..|nb| - 1] + [nb[|nb| - 1]];
  }

  lemma {:induction false} DirPathIsInjective(a: seq<string>, b: seq<string>)
    requires NamesOk(a) && NamesOk(b) && DirPath(a) == DirPath(b)
    ensures a == b
  {
    DirPathNotRoot(a);
    DirPathNotRoot(b);
    VPathIsInjective(a, b);
  }

  /** The view a scanned table gives: a visible path resolves to itself, a top-level name behind two slashes to
      the path with one, and nothing else resolves. */
  lemma {:induction false} ScannedResolve(scanPath: string, entries: seq<Entry>, path: string)
    requires TreeOk(entries)
    ensures SqliteResolve(ScanRows(scanPath, entries), path) ==
            if Visible(entries, path) then Some(path)
            else if DoubledTop(entries, path) then Some(path[1..])
            else None
  {
    if path == "/" {
    } else if SqliteResolve(ScanRows(scanPath, entries), path).Some? {
      ResolvedIsVisible(scanPath, entries, path);
    } else {
      VisibleIsResolved(scanPath, entries, path);
    }
  }

  lemma {:induction false} ResolvedIsVisible(scanPath: string, entries: seq<Entry>, path: string)
    requires TreeOk(entries) && path != "/" && SqliteResolve(ScanRows(scanPath, entries), path).Some?
    ensures if Visible(entries, path) then SqliteResolve(ScanRows(scanPath, entries), path) == Some(path)
            else DoubledTop(entries, path) && SqliteResolve(ScanRows(scanPath, entries), path) == Some(path[1..])
  {
    var rows := ScanRows(scanPath, entries);
    var (parent, name) := SplitPath(path);
    FirstMatchFinds(rows, parent, name);
    var k :| 0 <= k < |rows| && IsEntry(rows[k], parent, name) && rows[k].realpath == SqliteResolve(rows, path).value;
    var names := MatchIsVisible(scanPath, entries, path, rows[k]);
    TwoSlashesAreNotOne(entries, path);
    if path != VPath(names) {
      assert names == [names[0]] && VPath([]) == "" && VPath(names) == "" + "/" + names[0];
      assert path[1..] == VPath(names);
      assert DoubledTop(entries, path);
    }
  }

  lemma {:induction false} VisibleIsResolved(scanPath: string, entries: seq<Entry>, path: string)
    requires TreeOk(entries) && path != "/" && SqliteResolve(ScanRows(scanPath, entries), path).None?
    ensures !Visible(entries, path) && !DoubledTop(entries, path)
  {
    FirstMatchFinds(ScanRows(scanPath, entries), SplitPath(path).0, SplitPath(path).1);
    forall names | Has(entries, names) && path == VPath(names) ensures false {
      SplitIsEntry(scanPath, entries, path, names);
    }
    forall top | Has(entries, [top]) && path == "//" + top ensures false {
      SplitIsEntry(scanPath, entries, path, [top]);
    }
  }

  lemma {:induction false} TwoSlashesAreNotOne(entries: seq<Entry>, path: string)
    requires TreeOk(entries)
    ensures DoubledTop(entries, path) ==> !Visible(entries, path)
  {
    forall names | Has(entries, names) ensures VPath(names) != "/" && VPath(names)[1] != '/' {
      HasNamesOk(entries, names);
      VPathHasOneSlashInFront(names);
    }
  }

  // ---------------------------------------------------------------------------------------------
  // Listing
  // ---------------------------------------------------------------------------------------------

  lemma {:induction false} NamesInAppend(a: seq<Row>, b: seq<Row>, dir: string)
    ensures NamesIn(a + b, dir) == NamesIn(a, dir) + NamesIn(b, dir)
  {
    if b == [] {
      assert a + b == a;
    } else {
      assert (a + b)[..|a + b| - 1] == a + b[..|b| - 1];
      NamesInAppend(a, b[..|b| - 1], dir);
    }
  }

  lemma {:induction false} NamesInNothing(rows: seq<Row>, dir: string)
    requires forall k :: 0 <= k < |rows| ==> rows[k].parent != dir
    ensures NamesIn(rows, dir) == []
  {
    if rows == [] {
    } else {
      NamesInNothing(rows[..|rows| - 1], dir);
    }
  }

  lemma {:induction false} InitOfConcat(a: seq<string>, b: seq<string>)
    requires b != []
    ensures a <= (a + b)[..|a + b| - 1]
  {
    assert (a + b)[..|a + b| - 1] == a + b[..|b| - 1];
  }

  lemma {:induction false} RowIsBelow(prefix: seq<string>, all: seq<string>, dir: seq<string>)
    requires all != [] && NamesOk(all) && NamesOk(dir) && prefix <= all[..|all| - 1] && !(prefix <= dir)
    ensures RowOf(all).parent != DirPath(dir)
  {
    var init := all[..|all| - 1];
    assert NamesOk(init);
    if DirPath(init) == DirPath(dir) {
      DirPathIsInjective(init, dir);
    }
  }

  /** What the rows of a walk list in a directory. */
  function Listed(root: string, prefix: seq<string>, entries: seq<Entry>, dir: seq<string>): seq<string> {
    NamesIn(WalkRows(LocalDir(root, prefix), |root|, entries), DirPath(dir))
  }

  function ListedBy(root: string, prefix: seq<string>, e: Entry, dir: seq<string>): seq<string> {
    NamesIn(EntryRows(LocalDir(root, prefix), |root|, e), DirPath(dir))
  }

  lemma {:induction false} ListedSplits(root: string, prefix: seq<string>, entries: seq<Entry>, dir: seq<string>)
    requires entries != []
    ensures Listed(root, prefix, entries, dir) == ListedBy(root, prefix, entries[0], dir) + Listed(root, prefix, entries[1..], dir)
  {
    NamesInAppend(EntryRows(LocalDir(root, prefix), |root|, entries[0]), WalkRows(LocalDir(root, prefix), |root|, entries[1..]), DirPath(dir));
  }

  lemma {:induction false} RestIsOk(entries: seq<Entry>)
    requires TreeOk(entries) && entries != []
    ensures EntryOk(entries[0]) && TreeOk(entries[1..])
    ensures forall k :: 0 <= k < |entries[1..]| ==> entries[1..][k] == entries[k + 1]
  {
  }

  /** A subtree holds no entry of a directory outside it. */
  lemma {:induction false} SubtreeIsElsewhere(root: string, prefix: seq<string>, entries: seq<Entry>, dir: seq<string>)
    requires RootOk(root) && NamesOk(prefix) && TreeOk(entries) && NamesOk(dir) && !(prefix <= dir)
    ensures Listed(root, prefix, entries, dir) == []
  {
    var rows := WalkRows(LocalDir(root, prefix), |root|, entries);
    forall k | 0 <= k < |rows| ensures rows[k].parent != DirPath(dir) {
      var names := WalkIsSound(root, prefix, entries, rows[k]);
      InitOfConcat(prefix, names);
      RowIsBelow(prefix, prefix + names, dir);
    }
    NamesInNothing(rows, DirPath(dir));
  }

  lemma {:induction false} RowListed(prefix: seq<string>, name: string, dir: seq<string>)
    requires NamesOk(prefix) && NamesOk(dir)
    ensures NamesIn([RowOf(prefix + [name])], DirPath(dir)) == if prefix == dir then [name] else []
  {
    assert (prefix + [name])[..|prefix|] == prefix;
    assert [RowOf(prefix + [name])][..0] == [];
    if DirPath(prefix) == DirPath(dir) { DirPathIsInjective(prefix, dir); }
  }

  /** What one kept entry contributes to a directory: its name, if that is where it lies, and its subtree. */
  lemma {:induction false} ListedByEntry(root: string, prefix: seq<string>, e: Entry, dir: seq<string>)
    requires RootOk(root) && NamesOk(prefix) && EntryOk(e) && Kept(e) && NamesOk(dir)
    ensures NamesOk(prefix + [e.name.value])
    ensures ListedBy(root, prefix, e, dir) ==
            (if prefix == dir then [e.name.value] else []) +
            (if e.kind.Leaf? then [] else Listed(root, prefix + [e.name.value], e.kind.children, dir))
  {
    var all := prefix + [e.name.value];
    var sub := if e.kind.Leaf? then [] else WalkRows(LocalDir(root, all), |root|, e.kind.children);
    EntryRowsAre(root, prefix, e);
    RowListed(prefix, e.name.value, dir);
    NamesInAppend([RowOf(all)], sub, DirPath(dir));
  }

  /** To its own directory an entry contributes its name only. */
  lemma {:induction false} ListedHere(root: string, dir: seq<string>, entries: seq<Entry>)
    requires RootOk(root) && NamesOk(dir) && TreeOk(entries)
    ensures Listed(root, dir, entries, dir) == KeptNames(entries)
    decreases entries
  {
    if entries == [] {
    } else {
      var e := entries[0];
      RestIsOk(entries);
      ListedSplits(root, dir, entries, dir);
      ListedHere(root, dir, entries[1..]);
      EntryIsHere(root, dir, e);
      assert KeptNames(entries) == (if Kept(e) then [e.name.value] else []) + KeptNames(entries[1..]);
    }
  }

  lemma {:induction false} EntryIsHere(root: string, dir: seq<string>, e: Entry)
    requires RootOk(root) && NamesOk(dir) && EntryOk(e)
    ensures ListedBy(root, dir, e, dir) == if Kept(e) then [e.name.value] else []
  {
    if Kept(e) {
      ListedByEntry(root, dir, e, dir);
      if e.kind.Directory? { SubtreeIsElsewhere(root, dir + [e.name.value], e.kind.children, dir); }
      assert [e.name.value] + [] == [e.name.value];
    }
  }

  /** Entries of other names contribute nothing. */
  lemma {:induction false} ListedElsewhere(root: string, prefix: seq<string>, entries: seq<Entry>, dir: seq<string>)
    requires RootOk(root) && NamesOk(prefix) && TreeOk(entries) && NamesOk(dir) && prefix < dir
    requires forall k :: 0 <= k < |entries| && Kept(entries[k]) ==> entries[k].name.value != dir[|prefix|]
    ensures Listed(root, prefix, entries, dir) == []
    decreases entries
  {
    if entries == [] {
    } else {
      var e := entries[0];
      RestIsOk(entries);
      ListedSplits(root, prefix, entries, dir);
      ListedElsewhere(root, prefix, entries[1..], dir);
      if Kept(e) { EntryIsElsewhere(root, prefix, e, dir); }
    }
  }

  lemma {:induction false} EntryIsElsewhere(root: string, prefix: seq<string>, e: Entry, dir: seq<string>)
    requires RootOk(root) && NamesOk(prefix) && EntryOk(e) && Kept(e) && NamesOk(dir) && prefix < dir
    requires e.name.value != dir[|prefix|]
    ensures ListedBy(root, prefix, e, dir) == []
  {
    ListedByEntry(root, prefix, e, dir);
    if e.kind.Directory? {
      var all := prefix + [e.name.value];
      assert all[|prefix|] != dir[|prefix|];
      SubtreeIsElsewhere(root, all, e.kind.children, dir);
    }
  }

  /** A directory of the tree lists its kept children. */
  lemma {:induction false} ListedBelow(root: string, prefix: seq<string>, entries: seq<Entry>, dir: seq<string>, children: seq<Entry>)
    requires RootOk(root) && NamesOk(prefix) && TreeOk(entries) && NamesOk(dir) && prefix <= dir
    requires IsDirAt(entries, dir[|prefix|..], children)
    ensures Listed(root, prefix, entries, dir) == KeptNames(children)
    decreases entries, 1
  {
    if prefix == dir {
      ListedHere(root, dir, entries);
    } else {
      var e, below := entries[0], dir[|prefix|..];
      RestIsOk(entries);
      ListedSplits(root, prefix, entries, dir);
      if Kept(e) && e.name.value == below[0] {
        OnlyThere(entries, 0, below, children);
        ListedBelowEntry(root, prefix, e, dir, children);
        ListedElsewhere(root, prefix, entries[1..], dir);
      } else {
        if Kept(e) { EntryIsElsewhere(root, prefix, e, dir); }
        DirIsInRest(entries, below, children);
        ListedBelow(root, prefix, entries[1..], dir, children);
      }
    }
  }

  lemma {:induction false} ListedBelowEntry(root: string, prefix: seq<string>, e: Entry, dir: seq<string>, children: seq<Entry>)
    requires RootOk(root) && NamesOk(prefix) && EntryOk(e) && Kept(e) && NamesOk(dir) && prefix < dir
    requires e.name.value == dir[|prefix|] && e.kind.Directory? && IsDirAt(e.kind.children, dir[|prefix|..][1..], children)
    ensures ListedBy(root, prefix, e, dir) == KeptNames(children)
    decreases e, 2
  {
    var all := prefix + [e.name.value];
    assert all <= dir && dir[|all|..] == dir[|prefix|..][1..];
    ListedByEntry(root, prefix, e, dir);
    ListedBelow(root, all, e.kind.children, dir, children);
    assert [] + KeptNames(children) == KeptNames(children);
  }

  /** The sibling with the right name is the one the directory is under. */
  lemma {:induction false} OnlyThere(entries: seq<Entry>, k: nat, below: seq<string>, children: seq<Entry>)
    requires TreeOk(entries) && below != [] && IsDirAt(entries, below, children)
    requires k < |entries| && Kept(entries[k]) && entries[k].name.value == below[0]
    ensures entries[k].kind.Directory? && IsDirAt(entries[k].kind.children, below[1..], children)
    ensures forall j :: 0 <= j < |entries| && j != k && Kept(entries[j]) ==> entries[j].name.value != below[0]
  {
  }

  lemma {:induction false} DirIsInRest(entries: seq<Entry>, below: seq<string>, children: seq<Entry>)
    requires entries != [] && below != [] && IsDirAt(entries, below, children)
    requires !(Kept(entries[0]) && entries[0].name.value == below[0])
    ensures IsDirAt(entries[1..], below, children)
  {
    var k :| 0 <= k < |entries| && Kept(entries[k]) && entries[k].name.value == below[0] &&
             entries[k].kind.Directory? && IsDirAt(entries[k].kind.children, below[1..], children);
    assert entries[1..][k - 1] == entries[k];
  }

  lemma {:induction false} DirNamesOk(entries: seq<Entry>, names: seq<string>, children: seq<Entry>)
    requires TreeOk(entries) && IsDirAt(entries, names, children)
    ensures NamesOk(names) && TreeOk(children)
    decreases names
  {
    if names == [] {
    } else {
      var k :| 0 <= k < |entries| && Kept(entries[k]) && entries[k].name.value == names[0] &&
               entries[k].kind.Directory? && IsDirAt(entries[k].kind.children, names[1..], children);
      assert EntryOk(entries[k]);
      DirNamesOk(entries[k].kind.children, names[1..], children);
      assert forall j :: 0 < j < |names| ==> names[j] == names[1..][j - 1];
    }
  }

  /** The directory a kept entry lies in is a directory of the tree. */
  lemma {:induction false} ParentIsDir(entries: seq<Entry>, names: seq<string>) returns (children: seq<Entry>)
    requires Has(entries, names)
    ensures IsDirAt(entries, names[..|names| - 1], children)
    decreases names
  {
    if |names| == 1 {
      children := entries;
    } else {
      var k :| 0 <= k < |entries| && Leads(entries[k], names);
      children := ParentIsDir(entries[k].kind.children, names[1..]);
      assert names[..|names| - 1][1..] == names[1..][..|names| - 2];
    }
  }

  lemma {:induction false} KeptNamesDistinct(entries: seq<Entry>)
    requires TreeOk(entries)
    ensures Distinct(KeptNames(entries))
    ensures forall n :: n in KeptNames(entries) ==> exists k :: 0 <= k < |entries| && Kept(entries[k]) && entries[k].name.value == n
  {
    if entries == [] {
    } else {
      assert forall k :: 0 <= k < |entries[1..]| ==> entries[1..][k] == entries[k + 1];
      KeptNamesDistinct(entries[1..]);
      assert Kept(entries[0]) ==> entries[0].name.value !in KeptNames(entries[1..]);
    }
  }

  /** The listing of a scanned table: the byte-sorted names of the kept children of a directory of the tree, and
      nothing for any other string. */
  lemma {:induction false} ScannedList(scanPath: string, entries: seq<Entry>, dir: string)
    requires TreeOk(entries)
    ensures forall names, children :: IsDirAt(entries, names, children) && dir == DirPath(names) ==>
      NamesIn(ScanRows(scanPath, entries), dir) == KeptNames(children)
    ensures (forall names, children :: IsDirAt(entries, names, children) ==> dir != DirPath(names)) ==>
      NamesIn(ScanRows(scanPath, entries), dir) == []
    ensures Distinct(NamesIn(ScanRows(scanPath, entries), dir))
  {
    var root := TrimSlashes(scanPath);
    var rows := ScanRows(scanPath, entries);
    assert LocalDir(root, []) == if root == "" then "/" else root by { assert root + VPath([]) == root; }
    forall names, children | IsDirAt(entries, names, children) && dir == DirPath(names)
      ensures NamesIn(rows, dir) == KeptNames(children) && Distinct(NamesIn(rows, dir))
    {
      DirNamesOk(entries, names, children);
      assert names[0..] == names;
      ListedBelow(root, [], entries, names, children);
      KeptNamesDistinct(children);
    }
    if forall names, children :: IsDirAt(entries, names, children) ==> dir != DirPath(names) {
      forall k | 0 <= k < |rows| ensures rows[k].parent != dir {
        ScanEmitsKeptPaths(scanPath, entries, rows[k]);
        var names :| Has(entries, names) && NamesOk(names) && rows[k] == RowOf(names);
        var children := ParentIsDir(entries, names);
      }
      NamesInNothing(rows, dir);
    }
  }

  // ---------------------------------------------------------------------------------------------
  // End to end
  // ---------------------------------------------------------------------------------------------

  /** What the mount shows of a tree. */
  ghost predicate ShowsTree(resolve: string -> Option<string>, list: string -> seq<string>, entries: seq<Entry>) {
    && (forall path :: resolve(path) == Some(path) <==> Visible(entries, path))
    && (forall path :: resolve(path).Some? <==> Visible(entries, path) || DoubledTop(entries, path))
    && (forall names, children :: IsDirAt(entries, names, children) ==> IsListing(list(DirPath(names)), KeptNames(children)))
    && (forall dir :: (forall names, children :: IsDirAt(entries, names, children) ==> dir != DirPath(names)) ==> list(dir) == [])
  }

  lemma {:induction false} SqliteShows(scanPath: string, entries: seq<Entry>)
    requires TreeOk(entries)
    ensures var rows := ScanRows(scanPath, entries);
      ShowsTree(path => SqliteResolve(rows, path), dir => SqliteList(rows, dir), entries)
  {
    var rows := ScanRows(scanPath, entries);
    forall path
      ensures SqliteResolve(rows, path) == Some(path) <==> Visible(entries, path)
      ensures SqliteResolve(rows, path).Some? <==> Visible(entries, path) || DoubledTop(entries, path)
    {
      ScannedResolve(scanPath, entries, path);
      assert DoubledTop(entries, path) ==> |path[1..]| < |path|;
    }
    forall names, children | IsDirAt(entries, names, children)
      ensures IsListing(SqliteList(rows, DirPath(names)), KeptNames(children))
    {
      ScannedList(scanPath, entries, DirPath(names));
      SortSorts(KeptNames(children));
    }
    forall dir | forall names, children :: IsDirAt(entries, names, children) ==> dir != DirPath(names)
      ensures SqliteList(rows, dir) == []
    {
      ScannedList(scanPath, entries, dir);
    }
  }

  lemma {:induction false} RedisShows(scanPath: string, entries: seq<Entry>, ks: Keyspace, table: string)
    requires TreeOk(entries) && CheckIdent(table) && Swept(ks, table)
    ensures var all := MirrorAll(ks, table, ScanRows(scanPath, entries));
      ShowsTree(path => RedisResolve(all, table, path), dir => RedisList(all, table, dir), entries)
  {
    var rows := ScanRows(scanPath, entries);
    SqliteShows(scanPath, entries);
    var all := MirrorAll(ks, table, rows);
    var (resolve, list) := (path => SqliteResolve(rows, path), dir => SqliteList(rows, dir));
    var (resolve', list') := (path => RedisResolve(all, table, path), dir => RedisList(all, table, dir));
    forall path ensures resolve'(path) == resolve(path) && list'(path) == list(path) {
      RedisShowsTheSame(scanPath, entries, ks, table, path);
    }
    SameView(resolve, list, resolve', list', entries);
  }

  /** A view in which no path with a newline resolves does not show a tree that has one. */
  lemma {:induction false} NewlineIsMissed(resolve: string -> Option<string>, list: string -> seq<string>, entries: seq<Entry>)
    requires TreeOk(entries) && !PlainTree(entries)
    requires forall path :: '\n' in path ==> resolve(path).None?
    ensures !ShowsTree(resolve, list, entries)
  {
    var names := NewlinePath(entries);
    VPathNewlines(names);
    assert Visible(entries, VPath(names));
  }

  /** Scan, print, read back, parse, load, then resolve and list, for every local tree: the mount shows it, that is, a
      path resolves to itself exactly when it is the root or a kept path, and listing a directory gives the
      byte-sorted names of its kept children, if and only if no kept name contains a newline; with sqlite... */
  lemma {:induction false} SqliteEndToEnd(scanPath: string, entries: seq<Entry>)
    requires TreeOk(entries)
    ensures var rows := Parsed(Lines(FileText(ScanRows(scanPath, entries))));
      ShowsTree(path => SqliteResolve(rows, path), dir => SqliteList(rows, dir), entries) <==> PlainTree(entries)
  {
    var text := FileText(ScanRows(scanPath, entries));
    var rows := Parsed(Lines(text));
    if PlainTree(entries) {
      LoadUndoesScan(scanPath, entries);
      SqliteShows(scanPath, entries);
    } else {
      forall path | '\n' in path ensures SqliteResolve(rows, path).None? { LoadedHasNoNewline(text, path); }
      NewlineIsMissed(path => SqliteResolve(rows, path), dir => SqliteList(rows, dir), entries);
    }
  }

  /** ... and with Redis, on a keyspace cleared of the table. */
  lemma {:induction false} RedisEndToEnd(scanPath: string, entries: seq<Entry>, ks: Keyspace, table: string)
    requires TreeOk(entries) && CheckIdent(table) && Swept(ks, table)
    ensures var all := MirrorAll(ks, table, Parsed(Lines(FileText(ScanRows(scanPath, entries)))));
      ShowsTree(path => RedisResolve(all, table, path), dir => RedisList(all, table, dir), entries) <==> PlainTree(entries)
  {
    var text := FileText(ScanRows(scanPath, entries));
    var all := MirrorAll(ks, table, Parsed(Lines(text)));
    if PlainTree(entries) {
      LoadUndoesScan(scanPath, entries);
      RedisShows(scanPath, entries, ks, table);
    } else {
      forall path | '\n' in path ensures RedisResolve(all, table, path).None? {
        LoadedHasNoNewline(text, path);
        RedisMirrorsRows(ks, table, Parsed(Lines(text)), SplitPath(path).0);
      }
      NewlineIsMissed(path => RedisResolve(all, table, path), dir => RedisList(all, table, dir), entries);
    }
  }

  /** Whatever text is loaded, no path with a newline resolves. */
  lemma {:induction false} LoadedHasNoNewline(text: string, path: string)
    requires '\n' in path
    ensures var rows := Parsed(Lines(text));
      SqliteResolve(rows, path).None? && LastMatch(rows, SplitPath(path).0, SplitPath(path).1).None?
  {
    var rows := Parsed(Lines(text));
    var (parent, name) := SplitPath(path);
    SplitKeepsNewline(path);
    LinesAreNewlineFree(text);
    ParsedNewlineFree(Lines(text));
    FirstMatchFinds(rows, parent, name);
    LastMatchFinds(rows, parent, name);
  }

  lemma {:induction false} SplitKeepsNewline(path: string)
    requires '\n' in path
    ensures '\n' in SplitPath(path).0 || '\n' in SplitPath(path).1
  {
    var k :| 0 <= k < |path| && path[k] == '\n';
    var i := LastSlash(path);
    if i >= 0 && k > i { assert path[i + 1..][k - i - 1] == '\n'; }
    if i > 0 && k < i { assert path[..i][k] == '\n'; }
  }

  lemma {:induction false} ParsedNewlineFree(lines: seq<string>)
    requires forall k :: 0 <= k < |lines| ==> '\n' !in lines[k]
    ensures forall k :: 0 <= k < |Parsed(lines)| ==> NewlineFree(Parsed(lines)[k])
  {
    if lines == [] {
    } else {
      ParsedNewlineFree(lines[..|lines| - 1]);
      ParseKeepsNewlineFree(lines[|lines| - 1]);
    }
  }

  lemma {:induction false} SameView(resolve: string -> Option<string>, list: string -> seq<string>,
                 resolve': string -> Option<string>, list': string -> seq<string>, entries: seq<Entry>)
    requires ShowsTree(resolve, list, entries)
    requires forall path :: resolve'(path) == resolve(path) && list'(path) == list(path)
    ensures ShowsTree(resolve', list', entries)
  {
  }

  lemma {:induction false} RedisShowsTheSame(scanPath: string, entries: seq<Entry>, ks: Keyspace, table: string, path: string)
    requires TreeOk(entries) && CheckIdent(table) && Swept(ks, table)
    ensures var rows := ScanRows(scanPath, entries);
      && RedisResolve(MirrorAll(ks, table, rows), table, path) == SqliteResolve(rows, path)
      && RedisList(MirrorAll(ks, table, rows), table, path) == SqliteList(rows, path)
  {
    var rows := ScanRows(scanPath, entries);
    var (parent, name) := SplitPath(path);
    BackendsAgreeIff(ks, table, rows, path);
    NamesInDistinctIff(rows, path);
    ScannedList(scanPath, entries, path);
    FirstMatchFinds(rows, parent, name);
    LastMatchFinds(rows, parent, name);
    if path != "/" && FirstMatch(rows, parent, name).Some? {
      var j :| 0 <= j < |rows| && IsEntry(rows[j], parent, name) && rows[j].realpath == FirstMatch(rows, parent, name).value;
      var k :| 0 <= k < |rows| && IsEntry(rows[k], parent, name) && rows[k].realpath == LastMatch(rows, parent, name).value;
      MatchesAgree(scanPath, entries, path, rows[j], rows[k]);
    }
  }
}
