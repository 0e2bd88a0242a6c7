/** What a newline in a name does besides hiding the name: the rest of its row can be read as a row of its own. */
module PipelineNewlines {
  import opened Wrappers
  import opened Text
  import opened Paths
  import opened Rows
  import opened Store
  import opened Scanner
  import opened Pipeline

  // ---------------------------------------------------------------------------------------------
  // Directories inside one another
  // ---------------------------------------------------------------------------------------------

  /** Directories with one entry each, the last of which is a file. */
  function Chain(names: seq<string>): seq<Entry>
    requires names != []
  {
    [Entry(Some(names[0]), if |names| == 1 then Leaf else Directory(Chain(names[1..])))]
  }

  predicate FileNames(names: seq<string>) {
    NamesOk(names) && forall k :: 0 <= k < |names| ==> names[k] != "." && names[k] != ".."
  }

  lemma {:induction false} ChainIsOk(names: seq<string>)
    requires FileNames(names) && names != []
    ensures TreeOk(Chain(names)) && Kept(Chain(names)[0])
  {
    if |names| == 1 {
    } else {
      ChainIsOk(names[1..]);
      assert EntryOk(Chain(names)[0]);
    }
  }

  lemma {:induction false} ChainRows(root: string, prefix: seq<string>, names: seq<string>)
    requires RootOk(root) && NamesOk(prefix) && FileNames(names) && names != []
    ensures NamesOk(prefix + [names[0]])
    ensures WalkRows(LocalDir(root, prefix), |root|, Chain(names)) ==
            [RowOf(prefix + [names[0]])] +
            if |names| == 1 then [] else WalkRows(LocalDir(root, prefix + [names[0]]), |root|, Chain(names[1..]))
  {
    var e := Chain(names)[0];
    ChainIsOk(names);
    EntryRowsAre(root, prefix, e);
    assert [e][1..] == [];
    var rows := EntryRows(LocalDir(root, prefix), |root|, e);
    assert WalkRows(LocalDir(root, prefix), |root|, [e]) == rows + [] == rows;
  }

  /** The last row of the walk is that of the file. */
  lemma {:induction false} ChainEnds(root: string, prefix: seq<string>, names: seq<string>) returns (init: seq<Row>)
    requires RootOk(root) && NamesOk(prefix) && FileNames(names) && names != []
    ensures NamesOk(prefix + names)
    ensures WalkRows(LocalDir(root, prefix), |root|, Chain(names)) == init + [RowOf(prefix + names)]
    decreases names
  {
    var all := prefix + [names[0]];
    ChainRows(root, prefix, names);
    HeadMoves(prefix, names);
    if |names| == 1 {
      init := [];
      assert [RowOf(all)] + [] == [] + [RowOf(all)];
    } else {
      var more := ChainEnds(root, all, names[1..]);
      init := [RowOf(all)] + more;
      ConcatIsAssociative([RowOf(all)], more, [RowOf(prefix + names)]);
    }
  }

  lemma {:induction false} ScanOfChain(scanPath: string, names: seq<string>) returns (init: seq<Row>)
    requires FileNames(names) && names != []
    ensures ScanRows(scanPath, Chain(names)) == init + [RowOf(names)]
  {
    var root := TrimSlashes(scanPath);
    assert LocalDir(root, []) == if root == "" then "/" else root by { assert root + VPath([]) == root; }
    init := ChainEnds(root, [], names);
    assert [] + names == names;
  }

  /** Every kept path of the chain begins with the first name. */
  lemma {:induction false} ChainBegins(names: seq<string>, path: seq<string>)
    requires names != [] && Has(Chain(names), path)
    ensures path[0] == names[0]
  {
  }

  // ---------------------------------------------------------------------------------------------
  // The last line of the file
  // ---------------------------------------------------------------------------------------------

  lemma {:induction false} EscapeIsPlain(s: string)
    requires '"' !in s && '\\' !in s
    ensures Escape(s) == s
  {
    if s == "" {
    } else {
      EscapeIsPlain(s[1..]);
      assert s == [s[0]] + s[1..];
    }
  }

  /** A real path with a newline is cut in two. */
  lemma {:induction false} PrintIsCut(row: Row, head: string, tail: string) returns (before: string)
    requires row.realpath == head + ("\n" + tail) && '"' !in row.realpath && '\\' !in row.realpath
    ensures Print(row) == before + ("\n" + (tail + "\""))
  {
    EscapeIsPlain(row.realpath);
    assert row.realpath[|head|] == '\n' && Special('\n');
    before := Pad(row.parent) + GAP + Pad(row.name) + GAP + ("\"" + head);
    assert Pad(row.realpath) == ("\"" + head) + ("\n" + (tail + "\""));
    ConcatIsAssociative(Pad(row.parent) + GAP + Pad(row.name) + GAP, "\"" + head, "\n" + (tail + "\""));
  }

  /** The lines in front of a line do not depend on it. */
  lemma {:induction false} LastLine(text: string, line: string) returns (init: seq<string>)
    requires '\n' !in line
    ensures Lines(text + "\n" + (line + "\n")) == init + [Chomp(line)]
    decreases |text|
  {
    var n := LineLength(text);
    var first := text[..n];
    if n == |text| {
      LinesOfTerminated(text, line + "\n");
      LinesOfTerminated(line, "");
      assert line + "\n" + "" == line + "\n";
      init := [Chomp(text)];
    } else {
      var rest := text[n + 1..];
      assert text + "\n" + (line + "\n") == first + "\n" + (rest + "\n" + (line + "\n"));
      LinesOfTerminated(first, rest + "\n" + (line + "\n"));
      var more := LastLine(rest, line);
      init := [Chomp(first)] + more;
    }
  }

  lemma {:induction false} FileEndsWith(rows: seq<Row>, row: Row, before: string, line: string) returns (init: seq<string>)
    requires Print(row) == before + ("\n" + line) && '\n' !in line
    ensures Lines(FileText(rows + [row])) == init + [Chomp(line)]
  {
    var text, end := FileText(rows), line + "\n";
    FileTextAppend(rows, [row]);
    assert FileText([row]) == Print(row) + "\n" by { assert FileText([row][1..]) == ""; }
    assert Print(row) + "\n" == before + ("\n" + end);
    ConcatIsAssociative(text, before, "\n" + end);
    ConcatIsAssociative(text + before, "\n", end);
    init := LastLine(text + before, line);
  }

  // ---------------------------------------------------------------------------------------------
  // The row nobody scanned
  // ---------------------------------------------------------------------------------------------

  lemma {:induction false} WordFeeds(cols: seq<string>, word: string, rest: string)
    requires Clean(word) && word != ""
    ensures Feed(Scan(cols, "", false, false), word + (" " + rest)) == Feed(Scan(cols + [word], "", false, false), rest)
  {
    CleanFeeds(Scan(cols, "", false, false), word, " " + rest);
    assert "" + word == word;
    BlanksFeed(Scan(cols, word, false, true), " ", rest);
  }

  lemma {:induction false} QuoteEndsWord(cols: seq<string>, word: string)
    requires Clean(word) && word != ""
    ensures Columns(Feed(Scan(cols, "", false, false), word + "\"")) == cols + [word]
  {
    CleanFeeds(Scan(cols, "", false, false), word, "\"");
    assert "" + word == word && "\""[1..] == "";
  }

  /** Three words with a quote at the end are three columns. */
  lemma {:induction false} ThreeWords(a: string, b: string, c: string)
    requires Clean(a) && Clean(b) && Clean(c) && a != "" && b != "" && c != ""
    ensures Parse(a + (" " + (b + (" " + (c + "\""))))) == Some(Row(a, b, c))
  {
    WordFeeds([], a, b + (" " + (c + "\"")));
    WordFeeds([] + [a], b, c + "\"");
    QuoteEndsWord([] + [a] + [b], c);
  }

  /** A file name without white space, quotes and backslashes. */
  predicate SimpleName(name: string) {
    NameOk(name) && name != "." && name != ".." && forall k :: 0 <= k < |name| ==> !Special(name[k])
  }

  /** A directory `q\n`, in it a directory `a b `, in it a directory `x`, in it a file `y`. */
  function NestedNames(x: string, y: string): seq<string> {
    ["q\n", "a b ", x, y]
  }

  lemma {:induction false} VPathOfTwo(a: string, b: string)
    ensures VPath([a]) == "/" + a && VPath([a, b]) == "/" + a + "/" + b
  {
    assert [a, b][..1] == [a] && [a][..0] == [];
  }

  lemma {:induction false} NestedPath(x: string, y: string)
    ensures VPath(NestedNames(x, y)) == "/q" + ("\n" + ("/a b " + ("/" + x + "/" + y)))
  {
    assert NestedNames(x, y)[..3] == ["q\n", "a b ", x] && ["q\n", "a b ", x][..2] == ["q\n", "a b "];
    VPathOfTwo("q\n", "a b ");
    var two := VPath(["q\n", "a b "]);
    assert two == "/q" + ("\n" + "/a b ");
    assert VPath(["q\n", "a b ", x]) == two + "/" + x;
    assert VPath(NestedNames(x, y)) == two + "/" + x + "/" + y;
    assert two + "/" + x + "/" + y == two + ("/" + x + "/" + y);
  }

  lemma {:induction false} SimpleNamesAreClean(x: string, y: string)
    requires SimpleName(x) && SimpleName(y)
    ensures var target := "/" + x + "/" + y; Clean(target) && '\n' !in target && '\\' !in target && '"' !in target
    ensures FileNames(NestedNames(x, y))
  {
    var target := "/" + x + "/" + y;
    forall k | 0 <= k < |target| ensures !Special(target[k]) {
      if 1 <= k < 1 + |x| { assert target[k] == x[k - 1]; } else if k > 1 + |x| { assert target[k] == y[k - 2 - |x|]; }
    }
    assert Special('\n') && Special('\\') && Special('"');
  }

  /** The last line of the file, and the row it makes. */
  lemma {:induction false} ScanEnds(scanPath: string, x: string, y: string) returns (lines: seq<string>, line: string)
    requires SimpleName(x) && SimpleName(y)
    ensures Lines(FileText(ScanRows(scanPath, Chain(NestedNames(x, y))))) == lines + [line]
    ensures Parse(line) == Some(Row("/a", "b", "/" + x + "/" + y))
  {
    var names, target := NestedNames(x, y), "/" + x + "/" + y;
    SimpleNamesAreClean(x, y);
    var rows := ScanOfChain(scanPath, names);
    var before := NestedPrint(x, y);
    line := "/a b " + (target + "\"");
    LineIsRow(target);
    lines := FileEndsWith(rows, RowOf(names), before, line);
  }

  /** The printed row of the file. */
  lemma {:induction false} NestedPrint(x: string, y: string) returns (before: string)
    requires SimpleName(x) && SimpleName(y)
    ensures Print(RowOf(NestedNames(x, y))) == before + ("\n" + ("/a b " + ("/" + x + "/" + y + "\"")))
  {
    var target := "/" + x + "/" + y;
    SimpleNamesAreClean(x, y);
    NestedPath(x, y);
    before := PrintIsCut(RowOf(NestedNames(x, y)), "/q", "/a b " + target);
    assert ("/a b " + target) + "\"" == "/a b " + (target + "\"");
  }

  lemma {:induction false} LineIsRow(target: string)
    requires Clean(target) && target != "" && '\n' !in target
    ensures var line := "/a b " + (target + "\"");
      '\n' !in line && Chomp(line) == line && Parse(line) == Some(Row("/a", "b", target))
  {
    assert "/a b " + (target + "\"") == "/a" + (" " + ("b" + (" " + (target + "\""))));
    ThreeWords("/a", "b", target);
  }

  /** The tree holds no `/a/b`, and yet a row for it is loaded: with Redis it resolves to `/x/y`, and with sqlite it
      resolves too. */
  lemma {:induction false} UnscannedPathResolves(scanPath: string, x: string, y: string, ks: Keyspace, table: string)
    requires SimpleName(x) && SimpleName(y) && CheckIdent(table) && Swept(ks, table)
    ensures var tree := Chain(NestedNames(x, y));
      var rows := Parsed(Lines(FileText(ScanRows(scanPath, tree))));
      && TreeOk(tree) && !Visible(tree, "/a/b") && !DoubledTop(tree, "/a/b")
      && RedisResolve(MirrorAll(ks, table, rows), table, "/a/b") == Some("/" + x + "/" + y)
      && SqliteResolve(rows, "/a/b").Some?
  {
    NotInTree(x, y);
    var lines, line := ScanEnds(scanPath, x, y);
    var row := Row("/a", "b", "/" + x + "/" + y);
    ParsedOfTwo(lines, [line]);
    assert [line][..0] == [] && Parsed([line]) == [row];
    SplitUndoesJoinIff("/a", "b");
    assert Join("/a", "b") == "/a/b";
    LastRowResolves(ks, table, Parsed(lines), row, "/a/b");
  }

  /** The row loaded last is what its path resolves to. */
  lemma {:induction false} LastRowResolves(ks: Keyspace, table: string, rows: seq<Row>, row: Row, path: string)
    requires CheckIdent(table) && Swept(ks, table) && path != "/" && SplitPath(path) == (row.parent, row.name)
    ensures RedisResolve(MirrorAll(ks, table, rows + [row]), table, path) == Some(row.realpath)
    ensures SqliteResolve(rows + [row], path).Some?
  {
    RedisMirrorsRows(ks, table, rows + [row], row.parent);
    assert (rows + [row])[|rows|] == row;
    FirstMatchFinds(rows + [row], row.parent, row.name);
  }

  lemma {:induction false} NotInTree(x: string, y: string)
    requires SimpleName(x) && SimpleName(y)
    ensures var tree := Chain(NestedNames(x, y)); TreeOk(tree) && !Visible(tree, "/a/b") && !DoubledTop(tree, "/a/b")
  {
    var tree := Chain(NestedNames(x, y));
    SimpleNamesAreClean(x, y);
    ChainIsOk(NestedNames(x, y));
    VPathOfTwo("a", "b");
    forall names | Has(tree, names) ensures VPath(names) != "/a/b" {
      HasNamesOk(tree, names);
      ChainBegins(NestedNames(x, y), names);
      assert NamesOk(["a", "b"]);
      if VPath(names) == VPath(["a", "b"]) { VPathIsInjective(names, ["a", "b"]); }
    }
    assert forall name :: ("//" + name)[1] == '/' != "/a/b"[1];
  }
}
