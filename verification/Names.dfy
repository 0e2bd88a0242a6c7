/** Lists of names in byte order: `ORDER BY name`, and the members of a Redis sorted set with equal scores. */
module Names {
  import opened Text

  ghost predicate Sorted(names: seq<string>) {
    forall j, k :: 0 <= j < k < |names| ==> !Before(names[k], names[j])
  }

  ghost predicate StrictlySorted(names: seq<string>) {
    forall j, k :: 0 <= j < k < |names| ==> Before(names[j], names[k])
  }

  /** Insert into an ordered list; keep a duplicate next to its twin or, for a set, drop it. */
  function Insert(names: seq<string>, n: string, keepTwin: bool): seq<string> {
    if names == [] then [n]
    else if Before(n, names[0]) then [n] + names
    else if n == names[0] && !keepTwin then names
    else [names[0]] + Insert(names[1..], n, keepTwin)
  }

  /** The sorted list of all names, duplicates included. */
  function Sort(names: seq<string>): seq<string> {
    if names == [] then [] else Insert(Sort(names[..|names| - 1]), names[|names| - 1], true)
  }

  lemma {:induction false} InsertElements(names: seq<string>, n: string, keepTwin: bool)
    ensures forall x :: x in Insert(names, n, keepTwin) <==> x in names || x == n
    ensures keepTwin ==> multiset(Insert(names, n, true)) == multiset(names) + multiset{n}
  {
    if names != [] && !Before(n, names[0]) {
      InsertElements(names[1..], n, keepTwin);
      assert names == [names[0]] + names[1..];
    }
  }

  /** What comes after an insertion is one of the names or the new one. */
  lemma {:induction false} InsertedAt(names: seq<string>, n: string, keepTwin: bool, k: nat)
    requires k < |Insert(names, n, keepTwin)|
    ensures Insert(names, n, keepTwin)[k] == n || exists j :: 0 <= j < |names| && names[j] == Insert(names, n, keepTwin)[k]
  {
    InsertElements(names, n, keepTwin);
    assert Insert(names, n, keepTwin)[k] in Insert(names, n, keepTwin);
  }

  lemma {:induction false} InsertIntoSorted(names: seq<string>, n: string)
    requires Sorted(names)
    ensures Sorted(Insert(names, n, true))
  {
    if names == [] {
    } else {
      if Before(n, names[0]) {
        BeforeIsTotal(n, names[0]);
        forall k | 0 <= k < |names| ensures !Before(names[k], n) {
          if k > 0 && Before(names[k], n) { BeforeIsTransitive(names[k], n, names[0]); }
        }
      } else {
        var tail := Insert(names[1..], n, true);
        InsertIntoSorted(names[1..], n);
        forall k | 0 <= k < |tail| ensures !Before(tail[k], names[0]) {
          InsertedAt(names[1..], n, true, k);
        }
      }
    }
  }

  lemma {:induction false} StrictTail(first: string, names: seq<string>, n: string, keepTwin: bool)
    requires Before(first, n) && (forall j :: 0 <= j < |names| ==> Before(first, names[j]))
    requires StrictlySorted(Insert(names, n, keepTwin))
    ensures StrictlySorted([first] + Insert(names, n, keepTwin))
  {
    var tail := Insert(names, n, keepTwin);
    forall k | 0 <= k < |tail| ensures Before(first, tail[k]) {
      InsertedAt(names, n, keepTwin, k);
    }
  }

  lemma {:induction false} InsertIntoStrict(names: seq<string>, n: string, keepTwin: bool)
    requires StrictlySorted(names)
    ensures (keepTwin ==> n !in names) ==> StrictlySorted(Insert(names, n, keepTwin))
    ensures n !in names ==> Insert(names, n, true) == Insert(names, n, false)
  {
    if names == [] {
    } else {
      BeforeIsTotal(n, names[0]);
      if Before(n, names[0]) {
        forall k | 0 <= k < |names| ensures Before(n, names[k]) {
          if k > 0 { BeforeIsTransitive(n, names[0], names[k]); }
        }
      } else {
        InsertIntoStrict(names[1..], n, keepTwin);
        assert names == [names[0]] + names[1..];
        if n != names[0] && (keepTwin ==> n !in names) {
          StrictTail(names[0], names[1..], n, keepTwin);
        }
      }
    }
  }

  lemma {:induction false} HeadIsElement(a: seq<string>)
    ensures a != [] ==> a[0] in a
  {
  }

  /** A strictly sorted list is determined by its elements. */
  lemma {:induction false} StrictlySortedIsUnique(a: seq<string>, b: seq<string>)
    requires StrictlySorted(a) && StrictlySorted(b) && forall x :: x in a <==> x in b
    ensures a == b
  {
    if a == [] {
      HeadIsElement(b);
    } else {
      assert a[0] in a && a[0] in b;
      assert b[0] in b && b[0] in a;
      var j :| 0 <= j < |b| && b[j] == a[0];
      var k :| 0 <= k < |a| && a[k] == b[0];
      BeforeIsTotal(a[0], b[0]);
      assert a[0] == b[0];
      forall x ensures x in a[1..] <==> x in b[1..] {
        BeforeIsIrreflexive(a[0]);
        assert x in a <==> x == a[0] || x in a[1..];
        assert x in b <==> x == b[0] || x in b[1..];
      }
      StrictlySortedIsUnique(a[1..], b[1..]);
      assert a == [a[0]] + a[1..] && b == [b[0]] + b[1..];
    }
  }

  ghost predicate Distinct(names: seq<string>) {
    forall j, k :: 0 <= j < k < |names| ==> names[j] != names[k]
  }

  /** The names stand in dictionary order, each once. */
  ghost predicate InByteOrder(names: seq<string>) {
    forall j, k :: 0 <= j < k < |names| ==> DictionaryBefore(names[j], names[k])
  }

  lemma {:induction false} StrictIsByteOrder(names: seq<string>)
    ensures StrictlySorted(names) <==> InByteOrder(names)
  {
    forall j, k | 0 <= j < k < |names| ensures Before(names[j], names[k]) <==> DictionaryBefore(names[j], names[k]) {
      BeforeIff(names[j], names[k]);
    }
  }

  /** The listing holds the names, each as often as it occurs, in dictionary order, each once. */
  ghost predicate IsListing(listed: seq<string>, names: seq<string>) {
    multiset(listed) == multiset(names) && InByteOrder(listed)
  }

  /** Sorting keeps the names, with their multiplicity, and puts them in dictionary order: no name comes before one that
      stands in front of it, and distinct ones are strictly ordered. */
  lemma {:induction false} SortSorts(names: seq<string>)
    ensures multiset(Sort(names)) == multiset(names)
    ensures forall x :: x in Sort(names) <==> x in names
    ensures forall j, k :: 0 <= j < k < |Sort(names)| ==> !DictionaryBefore(Sort(names)[k], Sort(names)[j])
    ensures Distinct(names) ==> IsListing(Sort(names), names)
  {
    SortIsSorted(names);
    var sorted := Sort(names);
    forall j, k | 0 <= j < k < |sorted| ensures !DictionaryBefore(sorted[k], sorted[j]) {
      BeforeIff(sorted[k], sorted[j]);
    }
    StrictIsByteOrder(sorted);
  }

  lemma {:induction false} SortIsSorted(names: seq<string>)
    ensures multiset(Sort(names)) == multiset(names)
    ensures forall x :: x in Sort(names) <==> x in names
    ensures Sorted(Sort(names)) && (Distinct(names) ==> StrictlySorted(Sort(names)))
  {
    if names == [] {
    } else {
      var init, last := names[..|names| - 1], names[|names| - 1];
      assert names == init + [last];
      SortIsSorted(init);
      InsertElements(Sort(init), last, true);
      InsertIntoSorted(Sort(init), last);
      if Distinct(names) {
        InsertIntoStrict(Sort(init), last, true);
      }
    }
  }
}
