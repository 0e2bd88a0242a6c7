/** The whitelist text format of src/scan.rs and its reader: `pad_field`, the printed row, `parse_row`, and the
    lines of a file as the load loop of src/bin/yourfs_tool.rs sees them. */
module Rows {
  import opened Wrappers
  import opened Text

  const FIELD_WIDTH: nat := 25
  const GAP: string := "  "

  datatype Row = Row(parent: string, name: string, realpath: string)

  // ---------------------------------------------------------------------------------------------
  // Printing
  // ---------------------------------------------------------------------------------------------

  predicate Special(c: char) {
    IsWhitespace(c) || c == '"' || c == '\\'
  }

  predicate NeedsQuotes(s: string) {
    exists k :: 0 <= k < |s| && Special(s[k])
  }

  function Escape(s: string): string {
    if s == "" then ""
    else (if s[0] == '"' || s[0] == '\\' then ['\\', s[0]] else [s[0]]) + Escape(s[1..])
  }

  /** A field with white space, quotes or backslashes is quoted and escaped, any other one is padded. */
  function Pad(s: string): (r: string)
    ensures !NeedsQuotes(s) ==> s <= r && IsBlank(r[|s|..]) && |r| == if |s| < FIELD_WIDTH then FIELD_WIDTH else |s|
  {
    if NeedsQuotes(s) then "\"" + Escape(s) + "\""
    else s + Repeat(' ', if |s| < FIELD_WIDTH then FIELD_WIDTH - |s| else 0)
  }

  lemma {:induction false} EscapeAppend(s: string, c: char)
    ensures Escape(s + [c]) == Escape(s) + Escape([c])
  {
    if s == "" {
    } else {
      assert (s + [c])[1..] == s[1..] + [c];
      EscapeAppend(s[1..], c);
    }
  }

  /** `pad_field` as code. */
  method PadField(s: string) returns (out: string)
    ensures out == Pad(s)
  {
    var special := false;
    for k := 0 to |s|
      invariant special <==> exists j :: 0 <= j < k && Special(s[j])
    {
      special := special || Special(s[k]);
    }
    if special {
      out := "\"";
      for k := 0 to |s|
        invariant out == "\"" + Escape(s[..k])
      {
        assert s[..k + 1] == s[..k] + [s[k]];
        EscapeAppend(s[..k], s[k]);
        if s[k] == '"' || s[k] == '\\' {
          out := out + "\\";
        }
        out := out + [s[k]];
      }
      assert s[..|s|] == s;
      out := out + "\"";
    } else {
      out := s;
      while |out| < FIELD_WIDTH
        invariant |s| <= |out| && (|out| <= FIELD_WIDTH || |out| == |s|)
        invariant out == s + Repeat(' ', |out| - |s|)
      {
        RepeatAppend(' ', |out| - |s|);
        out := out + " ";
      }
    }
  }

  lemma {:induction false} RepeatAppend(c: char, n: nat)
    ensures Repeat(c, n) + [c] == Repeat(c, n + 1)
  {
  }

  /** One line of the whitelist file. */
  function Print(row: Row): string {
    Pad(row.parent) + GAP + Pad(row.name) + GAP + Pad(row.realpath)
  }

  // ---------------------------------------------------------------------------------------------
  // Parsing
  // ---------------------------------------------------------------------------------------------

  /** The local variables of `parse_row`. */
  datatype Scan = Scan(cols: seq<string>, cur: string, inQuotes: bool, hasField: bool)

  const START: Scan := Scan([], "", false, false)

  /** Read a whole line from the given state. */
  function Feed(st: Scan, line: string): Scan
    decreases |line|
  {
    if line == "" then st
    else
      var c, rest := line[0], line[1..];
      if st.inQuotes then
        if c == '\\' then
          if rest != "" && Special(rest[0]) then Feed(st.(cur := st.cur + [rest[0]]), rest[1..])
          else Feed(st.(cur := st.cur + "\\"), rest)
        else if c == '"' then Feed(st.(inQuotes := false), rest)
        else Feed(st.(cur := st.cur + [c]), rest)
      else if c == '"' then Feed(st.(inQuotes := true, hasField := true), rest)
      else if IsWhitespace(c) then
        if st.hasField then Feed(Scan(st.cols + [st.cur], "", false, false), rest) else Feed(st, rest)
      else Feed(st.(cur := st.cur + [c], hasField := true), rest)
  }

  function Columns(st: Scan): seq<string> {
    if st.hasField then st.cols + [st.cur] else st.cols
  }

  /** Three columns make a row; anything else is malformed. */
  function Parse(line: string): Option<Row> {
    var cols := Columns(Feed(START, line));
    if |cols| == 3 then Some(Row(cols[0], cols[1], cols[2])) else None
  }

  /** `parse_row` as code. */
  method ParseRow(line: string) returns (r: Option<Row>)
    ensures r == Parse(line)
  {
    var cols: seq<string>, cur, inQuotes, hasField := [], "", false, false;
    var i := 0;
    while i < |line|
      invariant 0 <= i <= |line|
      invariant Feed(Scan(cols, cur, inQuotes, hasField), line[i..]) == Feed(START, line)
    {
      var c := line[i];
      assert line[i..][0] == c && line[i..][1..] == line[i + 1..];
      i := i + 1;
      if inQuotes {
        if c == '\\' {
          if i < |line| {
            var n := line[i];
            if n == '"' || n == '\\' || IsWhitespace(n) {
              assert line[i..][0] == n && line[i..][1..] == line[i + 1..];
              cur := cur + [n];
              i := i + 1;
              continue;
            }
          }
          cur := cur + "\\";
        } else if c == '"' {
          inQuotes := false;
        } else {
          cur := cur + [c];
        }
      } else if c == '"' {
        inQuotes := true;
        hasField := true;
      } else if IsWhitespace(c) {
        if hasField {
          cols, cur := cols + [cur], "";
          hasField := false;
        }
      } else {
        cur := cur + [c];
        hasField := true;
      }
    }
    if hasField {
      cols := cols + [cur];
    }
    if |cols| == 3 {
      r := Some(Row(cols[0], cols[1], cols[2]));
    } else {
      r := None;
    }
  }

  // ---------------------------------------------------------------------------------------------
  // Printing and parsing are inverse
  // ---------------------------------------------------------------------------------------------

  predicate Clean(s: string) {
    forall k :: 0 <= k < |s| ==> !IsWhitespace(s[k]) && s[k] != '"'
  }

  lemma {:induction false} CleanFeeds(st: Scan, s: string, rest: string)
    requires !st.inQuotes && Clean(s)
    ensures Feed(st, s + rest) == Feed(st.(cur := st.cur + s, hasField := st.hasField || s != ""), rest)
    decreases s
  {
    if s == "" {
      assert s + rest == rest && st.cur + s == st.cur;
    } else {
      assert (s + rest)[1..] == s[1..] + rest;
      CleanFeeds(st.(cur := st.cur + [s[0]], hasField := true), s[1..], rest);
      assert st.cur + [s[0]] + s[1..] == st.cur + s;
    }
  }

  /** Blanks end the current field, if there is one. */
  lemma {:induction false} BlanksFeed(st: Scan, s: string, rest: string)
    requires !st.inQuotes && IsBlank(s) && (st.hasField || st.cur == "")
    ensures Feed(st, s + rest) == Feed(if s == "" then st else Scan(Columns(st), "", false, false), rest)
    decreases s
  {
    if s == "" {
      assert s + rest == rest;
    } else {
      var next := Scan(Columns(st), "", false, false);
      assert (s + rest)[0] == s[0] && (s + rest)[1..] == s[1..] + rest;
      assert !st.hasField ==> next == st;
      assert Feed(st, s + rest) == Feed(next, s[1..] + rest);
      BlanksFeed(next, s[1..], rest);
    }
  }

  /** An escaped string, read inside quotes up to the closing quote, is the string. */
  lemma {:induction false} EscapedFeeds(st: Scan, s: string, rest: string)
    requires st.inQuotes
    ensures Feed(st, Escape(s) + "\"" + rest) == Feed(st.(cur := st.cur + s, inQuotes := false), rest)
    decreases s
  {
    var line := Escape(s) + "\"" + rest;
    if s == "" {
      assert line[1..] == rest && st.cur + s == st.cur;
    } else {
      var tail := Escape(s[1..]) + "\"" + rest;
      if s[0] == '"' || s[0] == '\\' {
        assert line[1..][0] == s[0] && line[1..][1..] == tail;
      } else {
        assert line[1..] == tail;
      }
      EscapedFeeds(st.(cur := st.cur + [s[0]]), s[1..], rest);
      assert st.cur + [s[0]] + s[1..] == st.cur + s;
    }
  }

  /** The columns after one more printed field: an empty one leaves no trace. */
  function After(cols: seq<string>, s: string): seq<string> {
    if s == "" then cols else cols + [s]
  }

  lemma {:induction false} QuotedFeeds(cols: seq<string>, s: string, tail: string)
    requires NeedsQuotes(s)
    ensures Feed(Scan(cols, "", false, false), Pad(s) + tail) == Feed(Scan(cols, s, false, true), tail)
  {
    var line := Pad(s) + tail;
    assert line[0] == '"' && line[1..] == Escape(s) + "\"" + tail;
    EscapedFeeds(Scan(cols, "", true, true), s, tail);
    assert "" + s == s;
  }

  lemma {:induction false} PlainFeeds(cols: seq<string>, s: string, blanks: string, tail: string)
    requires !NeedsQuotes(s) && Pad(s) == s + blanks
    ensures Feed(Scan(cols, "", false, false), Pad(s) + tail) == Feed(Scan(cols, s, false, s != ""), blanks + tail)
  {
    ConcatIsAssociative(s, blanks, tail);
    assert Clean(s) by {
      forall k | 0 <= k < |s| ensures !IsWhitespace(s[k]) && s[k] != '"' { assert !Special(s[k]); }
    }
    CleanFeeds(Scan(cols, "", false, false), s, blanks + tail);
    assert "" + s == s;
  }

  /** Reading a printed field leaves the field as the current one, and perhaps blanks to skip. */
  lemma {:induction false} FieldFeeds(cols: seq<string>, s: string, tail: string) returns (blanks: string)
    ensures IsBlank(blanks)
    ensures Feed(Scan(cols, "", false, false), Pad(s) + tail) == Feed(Scan(cols, s, false, s != ""), blanks + tail)
  {
    if NeedsQuotes(s) {
      blanks := "";
      QuotedFeeds(cols, s, tail);
      assert blanks + tail == tail;
    } else {
      blanks := Pad(s)[|s|..];
      PlainFeeds(cols, s, blanks, tail);
    }
  }

  /** A printed field followed by blanks is one column. */
  lemma {:induction false} PadFeeds(cols: seq<string>, s: string, gap: string, rest: string)
    requires IsBlank(gap) && gap != ""
    ensures Feed(Scan(cols, "", false, false), Pad(s) + (gap + rest)) == Feed(Scan(After(cols, s), "", false, false), rest)
  {
    var blanks := FieldFeeds(cols, s, gap + rest);
    ConcatIsAssociative(blanks, gap, rest);
    BlanksFeed(Scan(cols, s, false, s != ""), blanks + gap, rest);
  }

  lemma {:induction false} LastPadFeeds(cols: seq<string>, s: string)
    ensures Columns(Feed(Scan(cols, "", false, false), Pad(s))) == After(cols, s)
  {
    var blanks := FieldFeeds(cols, s, "");
    BlanksFeed(Scan(cols, s, false, s != ""), blanks, "");
    assert Pad(s) + "" == Pad(s);
  }

  /** What the reader makes of a printed row: its non-empty fields. */
  lemma {:induction false} PrintedColumns(row: Row)
    ensures Columns(Feed(START, Print(row))) == After(After(After([], row.parent), row.name), row.realpath)
  {
    var tail1 := Pad(row.name) + GAP + Pad(row.realpath);
    var tail2 := Pad(row.realpath);
    assert Print(row) == Pad(row.parent) + (GAP + tail1) && tail1 == Pad(row.name) + (GAP + tail2);
    PadFeeds([], row.parent, GAP, tail1);
    PadFeeds(After([], row.parent), row.name, GAP, tail2);
    LastPadFeeds(After(After([], row.parent), row.name), row.realpath);
  }

  /** `parse_row` returns exactly the printed triple if and only if no field is empty, whatever white space,
      quotes, backslashes or over-long names the fields contain; a row with an empty field is malformed. */
  lemma {:induction false} RoundTrip(row: Row)
    ensures Parse(Print(row)) ==
            if row.parent != "" && row.name != "" && row.realpath != "" then Some(row) else None
  {
    PrintedColumns(row);
  }

  /** Hence no two rows without empty fields print alike. */
  lemma {:induction false} PrintIsInjective(a: Row, b: Row)
    requires a.parent != "" && a.name != "" && a.realpath != "" && Print(a) == Print(b)
    ensures a == b
  {
    RoundTrip(a);
    RoundTrip(b);
  }

  // ---------------------------------------------------------------------------------------------
  // Lines without quotes tokenize like `fscanf("%s %s %s")`
  // ---------------------------------------------------------------------------------------------

  function WordLength(line: string): (n: nat)
    ensures n <= |line| && (forall k :: 0 <= k < n ==> !IsWhitespace(line[k])) && (n < |line| ==> IsWhitespace(line[n]))
  {
    if line == "" || IsWhitespace(line[0]) then 0 else 1 + WordLength(line[1..])
  }

  /** Splitting at white space. */
  function Words(line: string): seq<string>
    decreases |line|
  {
    if line == "" then []
    else if IsWhitespace(line[0]) then Words(line[1..])
    else [line[..WordLength(line)]] + Words(line[WordLength(line)..])
  }

  lemma {:induction false} UnquotedColumns(cols: seq<string>, line: string)
    requires '"' !in line
    ensures Columns(Feed(Scan(cols, "", false, false), line)) == cols + Words(line)
    decreases |line|
  {
    var st := Scan(cols, "", false, false);
    if line == "" {
    } else if IsWhitespace(line[0]) {
      UnquotedColumns(cols, line[1..]);
    } else {
      var n := WordLength(line);
      var word, rest := line[..n], line[n..];
      assert line == word + rest;
      CleanFeeds(st, word, rest);
      assert "" + word == word && Words(line) == [word] + Words(rest);
      if rest != "" {
        UnquotedColumns(cols + [word], rest[1..]);
        ConcatIsAssociative(cols, [word], Words(rest));
      }
    }
  }

  /** A line without a double quote parses if and only if it has exactly three words, and then into those. */
  lemma {:induction false} UnquotedLinesTokenize(line: string)
    requires '"' !in line
    ensures Parse(line).Some? <==> |Words(line)| == 3
    ensures Parse(line).Some? ==> var row := Parse(line).value; [row.parent, row.name, row.realpath] == Words(line)
  {
    UnquotedColumns([], line);
    assert [] + Words(line) == Words(line);
  }

  // ---------------------------------------------------------------------------------------------
  // The lines of a file
  // ---------------------------------------------------------------------------------------------

  function LineLength(text: string): (n: nat)
    ensures n <= |text| && '\n' !in text[..n] && (n < |text| ==> text[n] == '\n')
  {
    if text == "" || text[0] == '\n' then 0
    else
      var n := 1 + LineLength(text[1..]);
      assert text[..n] == [text[0]] + text[1..][..n - 1];
      n
  }

  /** `BufRead::lines` drops the newline, and one carriage return in front of it. */
  function Chomp(line: string): string {
    if line != "" && line[|line| - 1] == '\r' then line[..|line| - 1] else line
  }

  function Lines(text: string): seq<string>
    decreases |text|
  {
    if text == "" then []
    else
      var n := LineLength(text);
      if n == |text| then [text] else [Chomp(text[..n])] + Lines(text[n + 1..])
  }

  /** `writeln!` of every row. */
  function FileText(rows: seq<Row>): string {
    if rows == [] then "" else Print(rows[0]) + "\n" + FileText(rows[1..])
  }

  predicate NewlineFree(row: Row) {
    '\n' !in row.parent && '\n' !in row.name && '\n' !in row.realpath
  }

  lemma {:induction false} EscapeKeeps(s: string)
    ensures '\n' in Escape(s) <==> '\n' in s
  {
    if s == "" {
    } else {
      EscapeKeeps(s[1..]);
      assert '\n' in s <==> s[0] == '\n' || '\n' in s[1..];
    }
  }

  /** A printed field contains a newline exactly when the field does, and never ends in a carriage return. */
  lemma {:induction false} PadKeepsLines(s: string)
    ensures '\n' in Pad(s) <==> '\n' in s
    ensures Pad(s) != "" && Pad(s)[|Pad(s)| - 1] != '\r'
  {
    EscapeKeeps(s);
    if NeedsQuotes(s) {
    } else {
      assert forall k :: 0 <= k < |s| ==> !Special(s[k]);
    }
  }

  lemma {:induction false} PrintKeepsLines(row: Row)
    ensures '\n' in Print(row) <==> !NewlineFree(row)
    ensures Print(row) != "" && Chomp(Print(row)) == Print(row)
  {
    PadKeepsLines(row.parent);
    PadKeepsLines(row.name);
    PadKeepsLines(row.realpath);
  }

  lemma {:induction false} LineLengthOf(line: string, rest: string)
    requires '\n' !in line
    ensures LineLength(line + "\n" + rest) == |line|
  {
    if line == "" {
      assert (line + "\n" + rest)[0] == '\n';
    } else {
      assert (line + "\n" + rest)[1..] == line[1..] + "\n" + rest;
      LineLengthOf(line[1..], rest);
    }
  }

  lemma {:induction false} LinesOfTerminated(line: string, rest: string)
    requires '\n' !in line
    ensures Lines(line + "\n" + rest) == [Chomp(line)] + Lines(rest)
  {
    var text := line + "\n" + rest;
    LineLengthOf(line, rest);
    assert text[..|line|] == line && text[|line| + 1..] == rest;
  }

  /** Reading the file back gives one line a row, each the printed row. */
  lemma {:induction false} LinesOfFile(rows: seq<Row>)
    requires forall k :: 0 <= k < |rows| ==> NewlineFree(rows[k])
    ensures |Lines(FileText(rows))| == |rows|
    ensures forall k :: 0 <= k < |rows| ==> Lines(FileText(rows))[k] == Print(rows[k])
  {
    if rows == [] {
    } else {
      PrintKeepsLines(rows[0]);
      LinesOfTerminated(Print(rows[0]), FileText(rows[1..]));
      LinesOfFile(rows[1..]);
    }
  }

  /** A row survives the file as one line if and only if none of its fields contains a newline. */
  lemma {:induction false} RowIsOneLineIff(row: Row)
    ensures Lines(FileText([row])) == [Print(row)] <==> NewlineFree(row)
  {
    var text := FileText([row]);
    assert FileText([row][1..]) == "";
    assert text == Print(row) + "\n" + "";
    PrintKeepsLines(row);
    if NewlineFree(row) {
      LinesOfTerminated(Print(row), "");
    } else {
      FirstLineIsShorter(Print(row), "\n");
    }
  }

  lemma {:induction false} FirstLineIsShorter(line: string, rest: string)
    requires '\n' in line
    ensures LineLength(line + rest) < |line| && |Lines(line + rest)[0]| < |line|
  {
    var k :| 0 <= k < |line| && line[k] == '\n';
    NewlineEndsLine(line + rest, k);
  }

  lemma {:induction false} NewlineEndsLine(text: string, k: nat)
    requires k < |text| && text[k] == '\n'
    ensures LineLength(text) <= k
  {
    if text[0] != '\n' { NewlineEndsLine(text[1..], k - 1); }
  }

  lemma {:induction false} LinesAreNewlineFree(text: string)
    ensures forall k :: 0 <= k < |Lines(text)| ==> '\n' !in Lines(text)[k]
    decreases |text|
  {
    if text == "" {
    } else {
      var n := LineLength(text);
      assert '\n' !in text[..n];
      if n == |text| {
        assert text[..n] == text;
      } else {
        LinesAreNewlineFree(text[n + 1..]);
      }
    }
  }

  predicate ColumnsNewlineFree(st: Scan) {
    '\n' !in st.cur && forall k :: 0 <= k < |st.cols| ==> '\n' !in st.cols[k]
  }

  lemma {:induction false} FeedKeepsNewlineFree(st: Scan, line: string)
    requires '\n' !in line && ColumnsNewlineFree(st)
    ensures ColumnsNewlineFree(Feed(st, line))
    decreases |line|
  {
    if line == "" {
    } else {
      var c, rest := line[0], line[1..];
      if st.inQuotes && c == '\\' && rest != "" && Special(rest[0]) {
        FeedKeepsNewlineFree(st.(cur := st.cur + [rest[0]]), rest[1..]);
      } else if st.inQuotes {
        FeedKeepsNewlineFree(if c == '"' then st.(inQuotes := false) else st.(cur := st.cur + [c]), rest);
      } else if c == '"' {
        FeedKeepsNewlineFree(st.(inQuotes := true, hasField := true), rest);
      } else if IsWhitespace(c) {
        FeedKeepsNewlineFree(if st.hasField then Scan(st.cols + [st.cur], "", false, false) else st, rest);
      } else {
        FeedKeepsNewlineFree(st.(cur := st.cur + [c], hasField := true), rest);
      }
    }
  }

  /** What is read from a line without a newline has none. */
  lemma {:induction false} ParseKeepsNewlineFree(line: string)
    requires '\n' !in line
    ensures Parse(line).Some? ==> NewlineFree(Parse(line).value)
  {
    FeedKeepsNewlineFree(START, line);
  }

  // ---------------------------------------------------------------------------------------------
  // Files not written by the scanner
  // ---------------------------------------------------------------------------------------------

  lemma {:induction false} LineLengthAlone(line: string)
    requires '\n' !in line
    ensures LineLength(line) == |line|
  {
    if line == "" {
    } else {
      LineLengthAlone(line[1..]);
    }
  }

  lemma {:induction false} LinesWithReturn(line: string, rest: string)
    requires '\n' !in line
    ensures Lines(line + "\r\n" + rest) == [line] + Lines(rest)
  {
    var all := line + "\r";
    LinesOfTerminated(all, rest);
    assert "\r" + "\n" == "\r\n";
    assert all + "\n" == line + "\r\n";
    assert Chomp(all) == line;
  }

  /** The lines of a text, one at a time: each ends at its newline, with or without a carriage return in front of it, and
      a last line without a newline counts as it is. */
  lemma {:induction false} LinesAre(line: string, rest: string)
    requires '\n' !in line
    ensures Lines("") == []
    ensures line != "" ==> Lines(line) == [line]
    ensures (line == "" || line[|line| - 1] != '\r') ==> Lines(line + "\n" + rest) == [line] + Lines(rest)
    ensures Lines(line + "\r\n" + rest) == [line] + Lines(rest)
  {
    LineLengthAlone(line);
    LinesOfTerminated(line, rest);
    LinesWithReturn(line, rest);
  }

  lemma {:induction false} LinesOfTwo(text: string, rest: string)
    requires text == "" || text[|text| - 1] == '\n'
    ensures Lines(text + rest) == Lines(text) + Lines(rest)
    decreases |text|
  {
    if text == "" {
      assert text + rest == rest && Lines(text) + Lines(rest) == Lines(rest);
    } else {
      var n := LineLength(text);
      var line, more := text[..n], text[n + 1..];
      assert text == line + "\n" + more && text + rest == line + "\n" + (more + rest);
      LinesOfTerminated(line, more);
      LinesOfTerminated(line, more + rest);
      LinesOfTwo(more, rest);
      ConcatIsAssociative([Chomp(line)], Lines(more), Lines(rest));
    }
  }

  /** `e` is `s` as it may be written between quotes: a quote is escaped, other white space and backslashes may be, and
      a backslash that is not has a character behind it that needs none. */
  predicate Writes(s: string, e: string)
    decreases e
  {
    if s == "" then e == ""
    else
      e != "" &&
      if |e| > 1 && e[0] == '\\' && Special(e[1]) then e[1] == s[0] && Writes(s[1..], e[2..])
      else e[0] == s[0] != '"' && (s[0] == '\\' ==> |e| > 1) && Writes(s[1..], e[1..])
  }

  /** Whichever way a string is written between quotes, it is read as that string. */
  lemma {:induction false} WrittenFeeds(st: Scan, s: string, e: string, rest: string)
    requires st.inQuotes && Writes(s, e)
    ensures Feed(st, e + "\"" + rest) == Feed(st.(cur := st.cur + s, inQuotes := false), rest)
    decreases e
  {
    var line := e + "\"" + rest;
    if s == "" {
      assert line[1..] == rest && st.cur + s == st.cur;
    } else if |e| > 1 && e[0] == '\\' && Special(e[1]) {
      assert line[1..][0] == e[1] && line[1..][1..] == e[2..] + "\"" + rest;
      WrittenFeeds(st.(cur := st.cur + [s[0]]), s[1..], e[2..], rest);
      assert st.cur + [s[0]] + s[1..] == st.cur + s;
    } else {
      assert line[1..] == e[1..] + "\"" + rest;
      assert |e| > 1 ==> line[1] == e[1];
      WrittenFeeds(st.(cur := st.cur + [s[0]]), s[1..], e[1..], rest);
      assert st.cur + [s[0]] + s[1..] == st.cur + s;
    }
  }

  /** The columns of plain fields up to 25 characters long start at 0, 27 and 54. */
  lemma {:induction false} PlainRowLayout(row: Row)
    requires !NeedsQuotes(row.parent) && !NeedsQuotes(row.name) && !NeedsQuotes(row.realpath)
    requires |row.parent| <= 25 && |row.name| <= 25
    ensures var line := Print(row);
      && |line| >= 54 + |row.realpath|
      && line[..|row.parent|] == row.parent && IsBlank(line[|row.parent|..27])
      && line[27..27 + |row.name|] == row.name && IsBlank(line[27 + |row.name|..54])
      && line[54..54 + |row.realpath|] == row.realpath && IsBlank(line[54 + |row.realpath|..])
  {
    var a, b, c := Pad(row.parent), Pad(row.name), Pad(row.realpath);
    var line := Print(row);
    assert line == a + GAP + b + GAP + c;
    assert line[..25] == a && line[27..52] == b && line[54..] == c;
    assert forall k :: |row.parent| <= k < 25 ==> line[k] == a[|row.parent|..][k - |row.parent|];
    assert forall k :: 27 + |row.name| <= k < 52 ==> line[k] == b[|row.name|..][k - 27 - |row.name|];
    assert line[54 + |row.realpath|..] == c[|row.realpath|..];
  }
}
