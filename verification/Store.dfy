/** The whitelist backends of src/db.rs: a sqlite table as a row sequence, Redis as one keyspace holding a
    sorted set and a hash per directory, their writers and their `resolve`/`list`. */
module Store {
  import opened Wrappers
  import opened Text
  import opened Names
  import opened Paths
  import opened Rows

  // ---------------------------------------------------------------------------------------------
  // Table names and Redis keys
  // ---------------------------------------------------------------------------------------------

  predicate IdentChar(c: char) {
    ('a' <= c <= 'z') || ('A' <= c <= 'Z') || ('0' <= c <= '9') || c == '_'
  }

  /** `check_ident` accepts the name. */
  predicate CheckIdent(name: string) {
    name != "" && forall k :: 0 <= k < |name| ==> IdentChar(name[k])
  }

  /** A name is accepted exactly when it is not empty and all its characters are in the ASCII ranges of digits,
      capitals and small letters or the underscore, by their codes. */
  lemma {:induction false} AcceptedNames(name: string)
    ensures CheckIdent(name) <==>
      |name| > 0 && forall c :: c in name ==>
        var n := c as int; 48 <= n <= 57 || 65 <= n <= 90 || n == 95 || 97 <= n <= 122
  {
    assert forall c :: IdentChar(c) <==> var n := c as int; 48 <= n <= 57 || 65 <= n <= 90 || n == 95 || 97 <= n <= 122;
    assert forall k :: 0 <= k < |name| ==> name[k] in name;
  }

  datatype KeyKind = Dir | Hash

  /** `dir_key` and `hash_key` */
  function Key(table: string, kind: KeyKind, parent: string): string {
    table + (if kind.Dir? then "|d|" else "|h|") + parent
  }

  /** Does the key match the pattern `{table}|*`?  Identifiers hold no pattern characters. */
  predicate Matches(key: string, table: string) {
    table + "|" <= key
  }

  function FirstBar(key: string): nat {
    if key == "" || key[0] == '|' then 0 else 1 + FirstBar(key[1..])
  }

  lemma {:induction false} FirstBarIs(table: string, rest: string)
    requires '|' !in table
    ensures FirstBar(table + "|" + rest) == |table|
  {
    if table == "" {
    } else {
      assert (table + "|" + rest)[1..] == table[1..] + "|" + rest;
      FirstBarIs(table[1..], rest);
    }
  }

  lemma {:induction false} BarEndsIdent(t1: string, rest1: string, t2: string, rest2: string)
    requires '|' !in t1 && '|' !in t2 && t1 + "|" + rest1 == t2 + "|" + rest2
    ensures t1 == t2 && rest1 == rest2
  {
    var key := t1 + "|" + rest1;
    FirstBarIs(t1, rest1);
    FirstBarIs(t2, rest2);
    assert key[..|t1|] == t1 && (t2 + "|" + rest2)[..|t2|] == t2;
    assert key[|t1| + 1..] == rest1 && (t2 + "|" + rest2)[|t2| + 1..] == rest2;
  }

  /** Keys of accepted tables are injective: two of them are equal only for the same table, the same kind and the
      same directory; in particular directory and hash keys never collide. */
  lemma {:induction false} KeysAreInjective(t1: string, k1: KeyKind, p1: string, t2: string, k2: KeyKind, p2: string)
    requires CheckIdent(t1) && CheckIdent(t2) && Key(t1, k1, p1) == Key(t2, k2, p2)
    ensures t1 == t2 && k1 == k2 && p1 == p2
  {
    var rest1 := (if k1.Dir? then "d|" else "h|") + p1;
    var rest2 := (if k2.Dir? then "d|" else "h|") + p2;
    assert Key(t1, k1, p1) == t1 + "|" + rest1 && Key(t2, k2, p2) == t2 + "|" + rest2;
    BarEndsIdent(t1, rest1, t2, rest2);
    assert rest1[0] == rest2[0] && rest1[2..] == p1 && rest2[2..] == p2;
  }

  /** A key of an accepted table matches the pattern of an accepted table only if it is the same table. */
  lemma {:induction false} MatchesOwnTableOnly(t1: string, kind: KeyKind, parent: string, t2: string)
    requires CheckIdent(t1) && CheckIdent(t2)
    ensures Matches(Key(t1, kind, parent), t2) <==> t1 == t2
  {
    var rest1 := (if kind.Dir? then "d|" else "h|") + parent;
    var key := Key(t1, kind, parent);
    assert key == t1 + "|" + rest1;
    if Matches(key, t2) {
      assert key == t2 + "|" + key[|t2| + 1..];
      BarEndsIdent(t1, rest1, t2, key[|t2| + 1..]);
    }
  }

  // ---------------------------------------------------------------------------------------------
  // Reference semantics of a whitelist: the row list
  // ---------------------------------------------------------------------------------------------

  predicate IsEntry(row: Row, parent: string, name: string) {
    row.parent == parent && row.name == name
  }

  /** The realpath of the first matching row (`... WHERE parent=? AND name=? LIMIT 1`). */
  function FirstMatch(rows: seq<Row>, parent: string, name: string): Option<string> {
    if rows == [] then None
    else if IsEntry(rows[0], parent, name) then Some(rows[0].realpath)
    else FirstMatch(rows[1..], parent, name)
  }

  /** The realpath of the last matching row. */
  function LastMatch(rows: seq<Row>, parent: string, name: string): Option<string> {
    if rows == [] then None
    else if IsEntry(rows[|rows| - 1], parent, name) then Some(rows[|rows| - 1].realpath)
    else LastMatch(rows[..|rows| - 1], parent, name)
  }

  /** The names of the rows of one directory, in row order. */
  function NamesIn(rows: seq<Row>, parent: string): seq<string> {
    if rows == [] then []
    else
      NamesIn(rows[..|rows| - 1], parent) + if rows[|rows| - 1].parent == parent then [rows[|rows| - 1].name] else []
  }

  ghost predicate DistinctEntries(rows: seq<Row>) {
    forall j, k :: 0 <= j < k < |rows| ==> !IsEntry(rows[j], rows[k].parent, rows[k].name)
  }

  /** Row `k` is the first for this entry. */
  predicate IsFirstEntry(rows: seq<Row>, k: int, parent: string, name: string) {
    0 <= k < |rows| && IsEntry(rows[k], parent, name) && forall j :: 0 <= j < k ==> !IsEntry(rows[j], parent, name)
  }

  predicate IsLastEntry(rows: seq<Row>, k: int, parent: string, name: string) {
    0 <= k < |rows| && IsEntry(rows[k], parent, name) && forall j :: k < j < |rows| ==> !IsEntry(rows[j], parent, name)
  }

  lemma {:induction false} FirstMatchFinds(rows: seq<Row>, parent: string, name: string)
    ensures FirstMatch(rows, parent, name).None? <==> forall k :: 0 <= k < |rows| ==> !IsEntry(rows[k], parent, name)
    ensures FirstMatch(rows, parent, name).Some? ==>
      exists k :: IsFirstEntry(rows, k, parent, name) && rows[k].realpath == FirstMatch(rows, parent, name).value
  {
    if rows == [] {
    } else {
      FirstMatchFinds(rows[1..], parent, name);
      assert forall k :: 0 < k < |rows| ==> rows[k] == rows[1..][k - 1];
      if IsEntry(rows[0], parent, name) {
        assert IsFirstEntry(rows, 0, parent, name);
      } else if FirstMatch(rows, parent, name).Some? {
        var k :| IsFirstEntry(rows[1..], k, parent, name) && rows[1..][k].realpath == FirstMatch(rows, parent, name).value;
        assert IsFirstEntry(rows, k + 1, parent, name);
      }
    }
  }

  lemma {:induction false} LastMatchFinds(rows: seq<Row>, parent: string, name: string)
    ensures LastMatch(rows, parent, name).None? <==> forall k :: 0 <= k < |rows| ==> !IsEntry(rows[k], parent, name)
    ensures LastMatch(rows, parent, name).Some? ==>
      exists k :: IsLastEntry(rows, k, parent, name) && rows[k].realpath == LastMatch(rows, parent, name).value
  {
    if rows == [] {
    } else {
      var init, last := rows[..|rows| - 1], |rows| - 1;
      LastMatchFinds(init, parent, name);
      assert forall k :: 0 <= k < |rows| - 1 ==> rows[k] == init[k];
      if IsEntry(rows[last], parent, name) {
        assert IsLastEntry(rows, last, parent, name);
      } else if LastMatch(rows, parent, name).Some? {
        var k :| IsLastEntry(init, k, parent, name) && init[k].realpath == LastMatch(rows, parent, name).value;
        assert IsLastEntry(rows, k, parent, name);
      }
    }
  }

  lemma {:induction false} NamesInAre(rows: seq<Row>, parent: string)
    ensures forall n :: n in NamesIn(rows, parent) <==> LastMatch(rows, parent, n).Some?
  {
    if rows == [] {
    } else {
      NamesInAre(rows[..|rows| - 1], parent);
    }
  }

  /** No two rows of the directory have the same name. */
  ghost predicate NoRepeatsIn(rows: seq<Row>, parent: string) {
    forall j, k :: 0 <= j < k < |rows| && rows[j].parent == parent ==> !IsEntry(rows[k], parent, rows[j].name)
  }

  lemma {:induction false} NoRepeatsWithLast(rows: seq<Row>, parent: string)
    requires rows != []
    ensures var init, last := rows[..|rows| - 1], rows[|rows| - 1];
      NoRepeatsIn(rows, parent) <==>
      NoRepeatsIn(init, parent) && (last.parent == parent ==> LastMatch(init, parent, last.name).None?)
  {
    var init, last := rows[..|rows| - 1], rows[|rows| - 1];
    assert forall k :: 0 <= k < |init| ==> init[k] == rows[k];
    LastMatchFinds(init, parent, last.name);
    if NoRepeatsIn(rows, parent) && last.parent == parent {
      forall k | 0 <= k < |init| ensures !IsEntry(init[k], parent, last.name) {
        assert rows[k].parent == parent ==> !IsEntry(last, parent, rows[k].name);
      }
    }
  }

  lemma {:induction false} DistinctWithLast(names: seq<string>, last: string)
    ensures Distinct(names + [last]) <==> Distinct(names) && last !in names
  {
    var all := names + [last];
    assert forall k :: 0 <= k < |names| ==> all[k] == names[k];
    assert all[|names|] == last;
  }

  lemma {:induction false} NamesInDistinctIff(rows: seq<Row>, parent: string)
    ensures Distinct(NamesIn(rows, parent)) <==> NoRepeatsIn(rows, parent)
  {
    if rows == [] {
    } else {
      var init, last := rows[..|rows| - 1], rows[|rows| - 1];
      NamesInDistinctIff(init, parent);
      NoRepeatsWithLast(rows, parent);
      if last.parent == parent {
        NamesInAre(init, parent);
        DistinctWithLast(NamesIn(init, parent), last.name);
      } else {
        assert NamesIn(init, parent) + [] == NamesIn(init, parent);
      }
    }
  }

  /** The rows of one entry. */
  ghost function RowsWith(rows: seq<Row>, parent: string, name: string): set<nat> {
    set k: nat | k < |rows| && IsEntry(rows[k], parent, name)
  }

  lemma {:induction false} RowsWithLast(rows: seq<Row>, parent: string, name: string)
    requires rows != []
    ensures var n := |rows| - 1;
      |RowsWith(rows, parent, name)| == |RowsWith(rows[..n], parent, name)| + if IsEntry(rows[n], parent, name) then 1 else 0
  {
    var n := |rows| - 1;
    var before := RowsWith(rows[..n], parent, name);
    assert RowsWith(rows, parent, name) == if IsEntry(rows[n], parent, name) then before + {n} else before;
  }

  /** Every row of the directory contributes its name once. */
  lemma {:induction false} NamesInCount(rows: seq<Row>, parent: string, name: string)
    ensures multiset(NamesIn(rows, parent))[name] == |RowsWith(rows, parent, name)|
  {
    if rows == [] {
      assert RowsWith(rows, parent, name) == {};
    } else {
      NamesInCount(rows[..|rows| - 1], parent, name);
      RowsWithLast(rows, parent, name);
    }
  }

  // ---------------------------------------------------------------------------------------------
  // Sqlite
  // ---------------------------------------------------------------------------------------------

  function SqliteResolve(rows: seq<Row>, path: string): Option<string> {
    if path == "/" then Some("/")
    else
      var (parent, name) := SplitPath(path);
      FirstMatch(rows, parent, name)
  }

  function SqliteList(rows: seq<Row>, dir: string): seq<string> {
    Sort(NamesIn(rows, dir))
  }

  /** `SqliteWriter`; a table is the sequence of its rows, whose ids are 1, 2, ... */
  class SqliteWriter {
    var tables: map<string, seq<Row>>
    var table: string
    var rows: seq<Row>

    constructor (tables: map<string, seq<Row>>)
      ensures this.tables == tables && table == "" && rows == []
    {
      this.tables, table, rows := tables, "", [];
    }

    /** `create`: drop and create; refuses names that are no identifiers. */
    method Create(name: string) returns (ok: bool)
      modifies this
      ensures ok <==> CheckIdent(name)
      ensures rows == old(rows)
      ensures ok ==> table == name && tables == old(tables)[name := []]
      ensures !ok ==> table == old(table) && tables == old(tables)
    {
      if !CheckIdent(name) {
        return false;
      }
      table := name;
      tables := tables[name := []];
      ok := true;
    }

    method Insert(row: Row)
      modifies `rows
      ensures rows == old(rows) + [row]
    {
      rows := rows + [row];
    }

    /** `finish`: one transaction inserting the rows under the ids 1, 2, ...  It fails, and nothing is committed,
        when the table is missing or an id is taken already. */
    method Finish() returns (ok: bool)
      modifies this
      ensures table == old(table)
      ensures ok <==> old(rows) == [] || (table in old(tables) && old(tables)[table] == [])
      ensures ok ==> rows == [] && tables == if old(rows) == [] then old(tables) else old(tables)[table := old(rows)]
      ensures !ok ==> rows == old(rows) && tables == old(tables)
    {
      if rows == [] {
        return true;
      }
      if table !in tables {
        return false;
      }
      var written := tables[table];
      for i := 0 to |rows|
        invariant written == tables[table] + rows[..i] && (i > 0 ==> tables[table] == [])
      {
        if i < |tables[table]| {
          return false; // the id i + 1 is taken
        }
        written := written + [rows[i]];
      }
      assert written == rows;
      tables := tables[table := written];
      rows := [];
      ok := true;
    }
  }

  // ---------------------------------------------------------------------------------------------
  // Redis
  // ---------------------------------------------------------------------------------------------

  datatype Value = ZSet(members: seq<string>) | Fields(fields: map<string, string>)

  type Keyspace = map<string, Value>

  /** `ZADD key 0 name`: a sorted set with equal scores keeps its members in byte order. */
  function ZAdd(ks: Keyspace, key: string, name: string): Keyspace {
    if key !in ks then ks[key := ZSet([name])]
    else if ks[key].ZSet? then ks[key := ZSet(Insert(ks[key].members, name, false))]
    else ks
  }

  function HSet(ks: Keyspace, key: string, name: string, v: string): Keyspace {
    if key !in ks then ks[key := Fields(map[name := v])]
    else if ks[key].Fields? then ks[key := Fields(ks[key].fields[name := v])]
    else ks
  }

  function ZRange(ks: Keyspace, key: string): seq<string> {
    if key in ks && ks[key].ZSet? then ks[key].members else []
  }

  function HKeys(ks: Keyspace, key: string): map<string, string> {
    if key in ks && ks[key].Fields? then ks[key].fields else map[]
  }

  function HGet(ks: Keyspace, key: string, name: string): Option<string> {
    if name in HKeys(ks, key) then Some(HKeys(ks, key)[name]) else None
  }

  /** The two commands of one row. */
  function Mirror(ks: Keyspace, table: string, row: Row): Keyspace {
    HSet(ZAdd(ks, Key(table, Dir, row.parent), row.name), Key(table, Hash, row.parent), row.name, row.realpath)
  }

  function MirrorAll(ks: Keyspace, table: string, rows: seq<Row>): Keyspace {
    if rows == [] then ks else Mirror(MirrorAll(ks, table, rows[..|rows| - 1]), table, rows[|rows| - 1])
  }

  function RedisResolve(ks: Keyspace, table: string, path: string): Option<string> {
    if path == "/" then Some("/")
    else
      var (parent, name) := SplitPath(path);
      HGet(ks, Key(table, Hash, parent), name)
  }

  function RedisList(ks: Keyspace, table: string, dir: string): seq<string> {
    ZRange(ks, Key(table, Dir, dir))
  }

  /** What SCAN promises over a full iteration: `replies` are the key batches of its calls; every matching key that
      is there from start to end is in one of them, and only matching keys are. */
  ghost predicate ScanGuarantee(ks: Keyspace, table: string, replies: seq<set<string>>) {
    && |replies| > 0
    && (forall key :: key in ks && Matches(key, table) ==> exists k :: 0 <= k < |replies| && key in replies[k])
    && (forall k, key :: 0 <= k < |replies| && key in replies[k] ==> Matches(key, table))
  }

  class RedisWriter {
    var ks: Keyspace
    var table: string
    var rows: seq<Row>

    constructor (ks: Keyspace)
      ensures this.ks == ks && table == "" && rows == []
    {
      this.ks, table, rows := ks, "", [];
    }

    /** `create`: delete every key of the table in a SCAN/DEL loop. */
    method Create(name: string, replies: seq<set<string>>) returns (ok: bool)
      requires CheckIdent(name) ==> ScanGuarantee(ks, name, replies)
      modifies this
      ensures ok <==> CheckIdent(name)
      ensures rows == old(rows)
      ensures !ok ==> table == old(table) && ks == old(ks)
      ensures ok ==> table == name
      ensures ok ==> forall key :: key in ks <==> key in old(ks) && !Matches(key, name)
      ensures ok ==> forall key :: key in ks ==> ks[key] == old(ks)[key]
    {
      if !CheckIdent(name) {
        return false;
      }
      table := name;
      var cursor := 0;
      while true
        invariant 0 <= cursor < |replies|
        invariant rows == old(rows) && table == name
        invariant forall key :: key in ks ==> key in old(ks) && ks[key] == old(ks)[key]
        invariant forall key :: key in old(ks) && !Matches(key, name) ==> key in ks
        invariant forall k, key :: 0 <= k < cursor && key in replies[k] ==> key !in ks
        decreases |replies| - cursor
      {
        var keys := replies[cursor];
        if keys != {} {
          ks := ks - keys;
        }
        if cursor + 1 == |replies| {
          break;
        }
        cursor := cursor + 1;
      }
      ok := true;
    }

    method Insert(row: Row)
      modifies `rows
      ensures rows == old(rows) + [row]
    {
      rows := rows + [row];
    }

    /** `finish`: the ZADD and HSET of every row, as one transaction. */
    method Finish()
      modifies this
      ensures table == old(table) && rows == []
      ensures ks == MirrorAll(old(ks), table, old(rows))
    {
      if rows == [] {
        return;
      }
      var applied := ks;
      for i := 0 to |rows|
        invariant applied == MirrorAll(ks, table, rows[..i])
      {
        assert rows[..i + 1][..i] == rows[..i];
        applied := ZAdd(applied, Key(table, Dir, rows[i].parent), rows[i].name);
        applied := HSet(applied, Key(table, Hash, rows[i].parent), rows[i].name, rows[i].realpath);
      }
      assert rows[..|rows|] == rows;
      ks := applied;
      rows := [];
    }
  }

  /** No key of the table is there, as after `create`. */
  ghost predicate Swept(ks: Keyspace, table: string) {
    forall key :: key in ks ==> !Matches(key, table)
  }

  /** The state of both structures of one directory: the sorted set holds exactly the names of the hash, in
      byte order, and the hash maps each to the realpath inserted last. */
  ghost predicate Mirrored(ks: Keyspace, table: string, rows: seq<Row>, dir: string) {
    var zkey, hkey := Key(table, Dir, dir), Key(table, Hash, dir);
    && (zkey in ks ==> ks[zkey].ZSet?) && (hkey in ks ==> ks[hkey].Fields?)
    && StrictlySorted(ZRange(ks, zkey))
    && (forall n :: n in ZRange(ks, zkey) <==> n in HKeys(ks, hkey))
    && (forall n :: HGet(ks, hkey, n) == LastMatch(rows, dir, n))
  }

  lemma {:induction false} SweptMirrored(ks: Keyspace, table: string, dir: string)
    requires CheckIdent(table) && Swept(ks, table)
    ensures Mirrored(ks, table, [], dir)
  {
    MatchesOwnTableOnly(table, Dir, dir, table);
    MatchesOwnTableOnly(table, Hash, dir, table);
  }

  /** The keys of one table: different for different kinds, and for different directories. */
  lemma {:induction false} KeysOfTable(table: string, p: string, q: string)
    requires CheckIdent(table)
    ensures Key(table, Dir, p) != Key(table, Hash, q)
    ensures p != q ==> Key(table, Dir, p) != Key(table, Dir, q) && Key(table, Hash, p) != Key(table, Hash, q)
  {
    if Key(table, Dir, p) == Key(table, Hash, q) { KeysAreInjective(table, Dir, p, table, Hash, q); }
    if Key(table, Dir, p) == Key(table, Dir, q) { KeysAreInjective(table, Dir, p, table, Dir, q); }
    if Key(table, Hash, p) == Key(table, Hash, q) { KeysAreInjective(table, Hash, p, table, Hash, q); }
  }

  /** One more row leaves the other directories of its table alone... */
  lemma {:induction false} MirrorKeepsOthers(ks: Keyspace, table: string, rows: seq<Row>, row: Row, dir: string)
    requires CheckIdent(table) && Mirrored(ks, table, rows, dir) && row.parent != dir
    ensures Mirrored(Mirror(ks, table, row), table, rows + [row], dir)
  {
    KeysOfTable(table, dir, row.parent);
    KeysOfTable(table, row.parent, dir);
    assert (rows + [row])[..|rows|] == rows;
  }

  /** ... and enters both structures of its own. */
  lemma {:induction false} MirrorKeepsOwn(ks: Keyspace, table: string, rows: seq<Row>, row: Row)
    requires CheckIdent(table) && Mirrored(ks, table, rows, row.parent)
    ensures Mirrored(Mirror(ks, table, row), table, rows + [row], row.parent)
  {
    var zkey := Key(table, Dir, row.parent);
    KeysOfTable(table, row.parent, row.parent);
    assert (rows + [row])[..|rows|] == rows;
    InsertElements(ZRange(ks, zkey), row.name, false);
    InsertIntoStrict(ZRange(ks, zkey), row.name, false);
  }

  lemma {:induction false} MirrorAllMirrors(ks: Keyspace, table: string, rows: seq<Row>, dir: string)
    requires CheckIdent(table) && Swept(ks, table)
    ensures Mirrored(MirrorAll(ks, table, rows), table, rows, dir)
  {
    if rows == [] {
      SweptMirrored(ks, table, dir);
    } else {
      var init, last := rows[..|rows| - 1], rows[|rows| - 1];
      MirrorAllMirrors(ks, table, init, dir);
      if last.parent == dir {
        MirrorKeepsOwn(MirrorAll(ks, table, init), table, init, last);
      } else {
        MirrorKeepsOthers(MirrorAll(ks, table, init), table, init, last, dir);
      }
      assert init + [last] == rows;
    }
  }

  /** After `create`, any inserts and `finish`: every directory's sorted set is exactly the key set of its hash, in
      dictionary order, and each hash value is the realpath inserted last for that name. */
  lemma {:induction false} RedisMirrorsRows(ks: Keyspace, table: string, rows: seq<Row>, dir: string)
    requires CheckIdent(table) && Swept(ks, table)
    ensures var all := MirrorAll(ks, table, rows);
      && InByteOrder(ZRange(all, Key(table, Dir, dir)))
      && (forall n :: n in ZRange(all, Key(table, Dir, dir)) <==> HGet(all, Key(table, Hash, dir), n).Some?)
      && (forall n, v :: HGet(all, Key(table, Hash, dir), n) == Some(v) <==>
            exists k :: IsLastEntry(rows, k, dir, n) && rows[k].realpath == v)
    ensures Mirrored(MirrorAll(ks, table, rows), table, rows, dir)
  {
    MirrorAllMirrors(ks, table, rows, dir);
    StrictIsByteOrder(ZRange(MirrorAll(ks, table, rows), Key(table, Dir, dir)));
    forall n, v
      ensures LastMatch(rows, dir, n) == Some(v) <==> exists k :: IsLastEntry(rows, k, dir, n) && rows[k].realpath == v
    {
      LastMatchFinds(rows, dir, n);
    }
  }

  /** Writing a table leaves the keys of every other accepted table alone. */
  lemma {:induction false} OtherTablesUntouched(ks: Keyspace, table: string, rows: seq<Row>, other: string, kind: KeyKind, dir: string)
    requires CheckIdent(table) && CheckIdent(other) && table != other
    ensures var key := Key(other, kind, dir);
      (key in MirrorAll(ks, table, rows) <==> key in ks) && (key in ks ==> MirrorAll(ks, table, rows)[key] == ks[key])
  {
    if rows == [] {
    } else {
      var row := rows[|rows| - 1];
      OtherTablesUntouched(ks, table, rows[..|rows| - 1], other, kind, dir);
      if Key(other, kind, dir) == Key(table, Dir, row.parent) { KeysAreInjective(other, kind, dir, table, Dir, row.parent); }
      if Key(other, kind, dir) == Key(table, Hash, row.parent) { KeysAreInjective(other, kind, dir, table, Hash, row.parent); }
    }
  }

  // ---------------------------------------------------------------------------------------------
  // The backends agree
  // ---------------------------------------------------------------------------------------------

  /** A list with a repeated name is no strictly sorted list, nor is its sorted form. */
  lemma {:induction false} StrictMeansDistinct(names: seq<string>, sorted: seq<string>)
    requires StrictlySorted(sorted) && multiset(sorted) == multiset(names)
    ensures Distinct(names)
  {
    forall j, k | 0 <= j < k < |names| ensures names[j] != names[k] {
      if names[j] == names[k] {
        var x := names[j];
        assert names == names[..j] + [x] + names[j + 1..k] + [x] + names[k + 1..];
        assert multiset(names)[x] >= 2;
        StrictHasNoTwins(sorted, x);
      }
    }
  }

  lemma {:induction false} StrictHasNoTwins(sorted: seq<string>, x: string)
    requires StrictlySorted(sorted)
    ensures multiset(sorted)[x] <= 1
  {
    if sorted == [] {
    } else {
      assert sorted == [sorted[0]] + sorted[1..];
      StrictHasNoTwins(sorted[1..], x);
      forall k | 0 < k < |sorted| ensures sorted[k] != sorted[0] {
        BeforeIsIrreflexive(sorted[0]);
        assert Before(sorted[0], sorted[k]);
      }
      assert sorted[0] !in sorted[1..];
    }
  }

  /** Both backends list a directory alike if and only if no name is repeated in it, and resolve a path alike if
      and only if the first and the last row for it name the same real path. */
  lemma {:induction false} BackendsAgreeIff(ks: Keyspace, table: string, rows: seq<Row>, path: string)
    requires CheckIdent(table) && Swept(ks, table)
    ensures var all := MirrorAll(ks, table, rows);
      RedisList(all, table, path) == SqliteList(rows, path) <==> NoRepeatsIn(rows, path)
    ensures var (parent, name) := SplitPath(path);
      path != "/" ==>
        (RedisResolve(MirrorAll(ks, table, rows), table, path) == SqliteResolve(rows, path) <==>
         FirstMatch(rows, parent, name) == LastMatch(rows, parent, name))
  {
    var all := MirrorAll(ks, table, rows);
    var (parent, name) := SplitPath(path);
    RedisMirrorsRows(ks, table, rows, parent);
    RedisMirrorsRows(ks, table, rows, path);
    NamesInAre(rows, path);
    NamesInDistinctIff(rows, path);
    SortIsSorted(NamesIn(rows, path));
    var listed := ZRange(all, Key(table, Dir, path));
    if Distinct(NamesIn(rows, path)) {
      forall n ensures n in listed <==> n in Sort(NamesIn(rows, path)) {
        assert n in HKeys(all, Key(table, Hash, path)) <==> HGet(all, Key(table, Hash, path), n).Some?;
      }
      StrictlySortedIsUnique(listed, Sort(NamesIn(rows, path)));
    } else if listed == Sort(NamesIn(rows, path)) {
      StrictMeansDistinct(NamesIn(rows, path), listed);
    }
  }

  /** In particular they agree on every path and every directory when the (parent, name) pairs are distinct. */
  lemma {:induction false} DistinctBackendsAgree(ks: Keyspace, table: string, rows: seq<Row>, path: string)
    requires CheckIdent(table) && Swept(ks, table) && DistinctEntries(rows)
    ensures RedisResolve(MirrorAll(ks, table, rows), table, path) == SqliteResolve(rows, path)
    ensures RedisList(MirrorAll(ks, table, rows), table, path) == SqliteList(rows, path)
  {
    var (parent, name) := SplitPath(path);
    BackendsAgreeIff(ks, table, rows, path);
    FirstMatchFinds(rows, parent, name);
    LastMatchFinds(rows, parent, name);
  }

  /** `resolve` with sqlite: the realpath of the first row for the path's parent and name, and none without one. */
  lemma {:induction false} SqliteResolvesFirst(rows: seq<Row>, path: string)
    requires path != "/"
    ensures forall v :: SqliteResolve(rows, path) == Some(v) <==>
      exists k :: IsFirstEntry(rows, k, SplitPath(path).0, SplitPath(path).1) && rows[k].realpath == v
  {
    FirstMatchFinds(rows, SplitPath(path).0, SplitPath(path).1);
  }

  /** `list` with sqlite: in byte order, each name as often as the directory has rows with it. */
  lemma {:induction false} SqliteListsEveryRow(rows: seq<Row>, dir: string, name: string)
    ensures multiset(SqliteList(rows, dir))[name] == |RowsWith(rows, dir, name)|
    ensures var listed := SqliteList(rows, dir);
      forall j, k :: 0 <= j < k < |listed| ==> !DictionaryBefore(listed[k], listed[j])
  {
    SortSorts(NamesIn(rows, dir));
    NamesInCount(rows, dir, name);
  }

  /** A name is listed in a directory if and only if the joined path resolves, for any rows whatever. */
  lemma {:induction false} SqliteListedIffResolves(rows: seq<Row>, dir: string, name: string)
    requires dir != "" && name != "" && '/' !in name
    ensures name in SqliteList(rows, dir) <==> SqliteResolve(rows, Join(dir, name)).Some?
  {
    SplitUndoesJoinIff(dir, name);
    SortSorts(NamesIn(rows, dir));
    NamesInAre(rows, dir);
    FirstMatchFinds(rows, dir, name);
    LastMatchFinds(rows, dir, name);
  }

  lemma {:induction false} RedisListedIffResolves(ks: Keyspace, table: string, rows: seq<Row>, dir: string, name: string)
    requires CheckIdent(table) && Swept(ks, table) && dir != "" && name != "" && '/' !in name
    ensures var all := MirrorAll(ks, table, rows);
      name in RedisList(all, table, dir) <==> RedisResolve(all, table, Join(dir, name)).Some?
  {
    SplitUndoesJoinIff(dir, name);
    RedisMirrorsRows(ks, table, rows, dir);
    assert Join(dir, name) != "/";
  }
}
