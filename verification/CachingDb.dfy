/** The opt-in whitelist cache of src/db.rs, under concurrent lookups and over a backend that may change. */
module CachingDb {
  import opened Wrappers

  datatype Query = Resolve(path: string) | List(dir: string)
  datatype Answer = RealPath(path: Option<string>) | Names(names: seq<string>)

  /** Both maps of the wrapper as one: the path map answers `resolve`, the directory map answers `list`. */
  type Store = map<Query, Answer>

  /** The first lock section: look the query up. */
  function Lookup(cache: Store, q: Query): Option<Answer> {
    if q in cache then Some(cache[q]) else None
  }

  /** The second one: keep the backend's answer. */
  function Keep(cache: Store, q: Query, a: Answer): Store {
    cache[q := a]
  }

  /** The two maps of the wrapper, seen as one. */
  function Both(paths: map<string, Option<string>>, dirs: map<string, seq<string>>): (cache: Store)
    ensures forall q :: q in cache <==> Held(paths, dirs, q)
    ensures forall q :: q in cache ==> cache[q] == Answered(paths, dirs, q)
  {
    map q | q in (set p | p in paths :: Query.Resolve(p)) + (set d | d in dirs :: Query.List(d)) :: Answered(paths, dirs, q)
  }

  predicate Held(paths: map<string, Option<string>>, dirs: map<string, seq<string>>, q: Query) {
    match q
    case Resolve(p) => p in paths
    case List(d) => d in dirs
  }

  function Answered(paths: map<string, Option<string>>, dirs: map<string, seq<string>>, q: Query): Answer
    requires Held(paths, dirs, q)
  {
    match q
    case Resolve(p) => RealPath(paths[p])
    case List(d) => Names(dirs[d])
  }

  lemma {:induction false} KeepsPath(paths: map<string, Option<string>>, dirs: map<string, seq<string>>, p: string, v: Option<string>)
    ensures Both(paths[p := v], dirs) == Keep(Both(paths, dirs), Query.Resolve(p), RealPath(v))
  {
    var now, later := Both(paths[p := v], dirs), Keep(Both(paths, dirs), Query.Resolve(p), RealPath(v));
    assert forall q :: Held(paths[p := v], dirs, q) <==> Held(paths, dirs, q) || q == Query.Resolve(p);
    assert forall q :: q in now ==> now[q] == later[q];
  }

  lemma {:induction false} KeepsNames(paths: map<string, Option<string>>, dirs: map<string, seq<string>>, d: string, v: seq<string>)
    ensures Both(paths, dirs[d := v]) == Keep(Both(paths, dirs), Query.List(d), Names(v))
  {
    var now, later := Both(paths, dirs[d := v]), Keep(Both(paths, dirs), Query.List(d), Names(v));
    assert forall q :: Held(paths, dirs[d := v], q) <==> Held(paths, dirs, q) || q == Query.List(d);
    assert forall q :: q in now ==> now[q] == later[q];
  }

  /** The wrapper as code.  `resolve` and `list` are two lock sections each, with the backend call between them, during
      which other threads may have theirs. */
  class Cache {
    var paths: map<string, Option<string>>
    var dirs: map<string, seq<string>>

    constructor ()
      ensures Abs() == map[]
    {
      paths, dirs := map[], map[];
    }

    function Abs(): Store
      reads this
    {
      Both(paths, dirs)
    }

    method TryResolve(path: string) returns (r: Option<Answer>)
      ensures r == Lookup(Abs(), Query.Resolve(path))
    {
      r := if path in paths then Some(RealPath(paths[path])) else None;
    }

    method KeepPath(path: string, v: Option<string>)
      modifies this
      ensures Abs() == Keep(old(Abs()), Query.Resolve(path), RealPath(v))
    {
      KeepsPath(paths, dirs, path, v);
      paths := paths[path := v];
    }

    method TryList(dir: string) returns (r: Option<Answer>)
      ensures r == Lookup(Abs(), Query.List(dir))
    {
      r := if dir in dirs then Some(Names(dirs[dir])) else None;
    }

    method KeepNames(dir: string, v: seq<string>)
      modifies this
      ensures Abs() == Keep(old(Abs()), Query.List(dir), Names(v))
    {
      KeepsNames(paths, dirs, dir, v);
      dirs := dirs[dir := v];
    }

    /** A whole `resolve` with no other thread about; `inner` is the backend call, absent for an error. */
    method Resolve(table: string, path: string, inner: (string, string) -> Option<Option<string>>) returns (r: Option<Answer>)
      modifies this
      ensures var hit, q := Lookup(old(Abs()), Query.Resolve(path)), Query.Resolve(path);
        && (hit.Some? ==> r == hit && Abs() == old(Abs()))
        && (hit.None? && inner(table, path).None? ==> r == None && Abs() == old(Abs()))
        && (hit.None? && inner(table, path).Some? ==>
              r == Some(RealPath(inner(table, path).value)) && Abs() == Keep(old(Abs()), q, r.value))
    {
      r := TryResolve(path);
      if r.Some? {
        return;
      }
      var v := inner(table, path);
      if v.None? {
        return None;
      }
      KeepPath(path, v.value);
      r := Some(RealPath(v.value));
    }

    method List(table: string, dir: string, inner: (string, string) -> Option<seq<string>>) returns (r: Option<Answer>)
      modifies this
      ensures var hit, q := Lookup(old(Abs()), Query.List(dir)), Query.List(dir);
        && (hit.Some? ==> r == hit && Abs() == old(Abs()))
        && (hit.None? && inner(table, dir).None? ==> r == None && Abs() == old(Abs()))
        && (hit.None? && inner(table, dir).Some? ==>
              r == Some(Names(inner(table, dir).value)) && Abs() == Keep(old(Abs()), q, r.value))
    {
      r := TryList(dir);
      if r.Some? {
        return;
      }
      var v := inner(table, dir);
      if v.None? {
        return None;
      }
      KeepNames(dir, v.value);
      r := Some(Names(v.value));
    }
  }

  // ---------------------------------------------------------------------------------------------
  // Any number of threads
  // ---------------------------------------------------------------------------------------------

  /** A thread that missed and waits for the backend, or has the answer but not yet stored it. */
  datatype Thread = Idle | Asking(table: string, q: Query) | Storing(table: string, q: Query, a: Answer)

  /** An answer, with the table and the query it is for. */
  datatype Fact = Fact(table: string, q: Query, a: Answer)

  /** `given` are the answers the backend has returned, `returned` those callers have got. */
  datatype State = State(cache: Store, threads: seq<Thread>, given: seq<Fact>, returned: seq<Fact>)

  datatype Action =
    | Call(t: nat, table: string, q: Query)   // look up under the lock: return at once, or go on to the backend
    | Backend(t: nat, a: Answer)              // the backend answers
    | Fails(t: nat)                           // the backend fails; so does the call
    | Stores(t: nat)                          // insert under the lock, and return

  predicate Init(s: State) {
    s.cache == map[] && s.given == [] && s.returned == [] && forall t :: 0 <= t < |s.threads| ==> s.threads[t].Idle?
  }

  predicate CanStep(s: State, a: Action) {
    a.t < |s.threads| &&
    match a
    case Call(t, _, _) => s.threads[t].Idle?
    case Backend(t, _) => s.threads[t].Asking?
    case Fails(t) => s.threads[t].Asking?
    case Stores(t) => s.threads[t].Storing?
  }

  function Step(s: State, a: Action): State
    requires CanStep(s, a)
  {
    match a
    case Call(t, table, q) =>
      var hit := Lookup(s.cache, q);
      if hit.Some? then s.(returned := s.returned + [Fact(table, q, hit.value)])
      else s.(threads := s.threads[t := Asking(table, q)])
    case Backend(t, answer) =>
      var Asking(table, q) := s.threads[t];
      s.(threads := s.threads[t := Storing(table, q, answer)], given := s.given + [Fact(table, q, answer)])
    case Fails(t) => s.(threads := s.threads[t := Idle])
    case Stores(t) =>
      var Storing(table, q, answer) := s.threads[t];
      s.(cache := Keep(s.cache, q, answer), threads := s.threads[t := Idle], returned := s.returned + [Fact(table, q, answer)])
  }

  ghost predicate IsRun(trace: seq<State>, actions: seq<Action>) {
    && |trace| == |actions| + 1
    && Init(trace[0])
    && forall k :: 0 <= k < |actions| ==> CanStep(trace[k], actions[k]) && trace[k + 1] == Step(trace[k], actions[k])
  }

  /** The backend has given this answer to this query, for some table. */
  ghost predicate Given(s: State, q: Query, a: Answer) {
    exists f :: f in s.given && f.q == q && f.a == a
  }

  ghost predicate Inv(s: State) {
    && (forall q :: q in s.cache ==> Given(s, q, s.cache[q]))
    && (forall t :: 0 <= t < |s.threads| && s.threads[t].Storing? ==> Given(s, s.threads[t].q, s.threads[t].a))
    && (forall f :: f in s.returned ==> Given(s, f.q, f.a))
  }

  lemma {:induction false} GivenStays(s: State, s': State, q: Query, a: Answer)
    requires Given(s, q, a) && s.given <= s'.given
    ensures Given(s', q, a)
  {
    var f :| f in s.given && f.q == q && f.a == a;
    var k :| 0 <= k < |s.given| && s.given[k] == f;
    assert s'.given[k] == f;
  }

  lemma {:induction false} StepKeepsInv(s: State, a: Action)
    requires Inv(s) && CanStep(s, a)
    ensures Inv(Step(s, a))
  {
    var s' := Step(s, a);
    if a.Backend? {
      assert s'.given[|s.given|] == Fact(s.threads[a.t].table, s.threads[a.t].q, a.a);
      assert Given(s', s.threads[a.t].q, a.a);
    }
    forall q, x | Given(s, q, x) ensures Given(s', q, x) { GivenStays(s, s', q, x); }
    forall f | f in s'.returned ensures Given(s', f.q, f.a) {
      if f !in s.returned { assert f == s'.returned[|s.returned|]; }
    }
  }

  /** Over a backend that changes: each successful answer is one the backend returned for that query, no later than
      the answer was handed out; and only such answers are ever cached, so no error is. */
  lemma {:induction false} AnswersAreTheBackends(trace: seq<State>, actions: seq<Action>, n: nat)
    requires IsRun(trace, actions) && n < |trace|
    ensures Inv(trace[n])
  {
    if n == 0 {
    } else {
      AnswersAreTheBackends(trace, actions, n - 1);
      StepKeepsInv(trace[n - 1], actions[n - 1]);
    }
  }

  /** The backend does not change while the run lasts. */
  ghost predicate Static(backend: (string, Query) -> Answer, trace: seq<State>) {
    forall n, f :: 0 <= n < |trace| && f in trace[n].given ==> f.a == backend(f.table, f.q)
  }

  /** All tables look alike to the query. */
  ghost predicate TableBlind(backend: (string, Query) -> Answer) {
    forall t1, t2, q :: backend(t1, q) == backend(t2, q)
  }

  lemma {:induction false} StaticAnswersAreRight(backend: (string, Query) -> Answer, trace: seq<State>, actions: seq<Action>, n: nat, f: Fact)
    requires IsRun(trace, actions) && Static(backend, trace) && n < |trace| && f in trace[n].returned
    ensures exists table :: f.a == backend(table, f.q)
  {
    AnswersAreTheBackends(trace, actions, n);
    assert Given(trace[n], f.q, f.a);
  }

  /** All calls of the run are about one table. */
  predicate OneTable(actions: seq<Action>, table: string) {
    forall k :: 0 <= k < |actions| && actions[k].Call? ==> actions[k].table == table
  }

  lemma {:induction false} OneTableFacts(trace: seq<State>, actions: seq<Action>, table: string, n: nat)
    requires IsRun(trace, actions) && OneTable(actions, table) && n < |trace|
    ensures forall t :: 0 <= t < |trace[n].threads| && !trace[n].threads[t].Idle? ==> trace[n].threads[t].table == table
    ensures forall f :: f in trace[n].given || f in trace[n].returned ==> f.table == table
  {
    if n == 0 {
    } else {
      OneTableFacts(trace, actions, table, n - 1);
      assert trace[n] == Step(trace[n - 1], actions[n - 1]);
    }
  }

  /** Over a backend that does not change, and for one table, every concurrent sequence of lookups is answered as the
      backend would. */
  lemma {:induction false} CacheIsTransparent(backend: (string, Query) -> Answer, trace: seq<State>, actions: seq<Action>, table: string, n: nat, f: Fact)
    requires IsRun(trace, actions) && Static(backend, trace) && OneTable(actions, table) && n < |trace| && f in trace[n].returned
    ensures f.a == backend(f.table, f.q)
  {
    AnswersAreTheBackends(trace, actions, n);
    OneTableFacts(trace, actions, table, n);
    assert Given(trace[n], f.q, f.a);
    var g :| g in trace[n].given && g.q == f.q && g.a == f.a;
  }

  /** The run in which one thread asks about one table and then about another. */
  function TwoTables(t1: string, t2: string, q: Query, a: Answer): seq<Action> {
    [Call(0, t1, q), Backend(0, a), Stores(0), Call(0, t2, q)]
  }

  /** Over several tables the cache is right if and only if the backend answers alike for all of them, because the
      cache key does not contain the table. */
  lemma {:induction false} SeveralTablesIff(backend: (string, Query) -> Answer)
    ensures TableBlind(backend) <==>
      forall trace: seq<State>, actions: seq<Action>, n: nat, f: Fact :: IsRun(trace, actions) && Static(backend, trace) && n < |trace| && f in trace[n].returned
        ==> f.a == backend(f.table, f.q)
  {
    if TableBlind(backend) {
      forall trace: seq<State>, actions: seq<Action>, n: nat, f: Fact | IsRun(trace, actions) && Static(backend, trace) && n < |trace| && f in trace[n].returned
        ensures f.a == backend(f.table, f.q)
      {
        StaticAnswersAreRight(backend, trace, actions, n, f);
      }
    } else {
      var t1, t2, q :| backend(t1, q) != backend(t2, q);
      var trace := MixedUp(backend, t1, t2, q);
      assert Fact(t2, q, backend(t1, q)) in trace[4].returned;
    }
  }

  lemma {:induction false} MixedUp(backend: (string, Query) -> Answer, t1: string, t2: string, q: Query) returns (trace: seq<State>)
    ensures |trace| == 5 && IsRun(trace, TwoTables(t1, t2, q, backend(t1, q))) && Static(backend, trace)
    ensures Fact(t2, q, backend(t1, q)) in trace[4].returned
  {
    var actions := TwoTables(t1, t2, q, backend(t1, q));
    var a := backend(t1, q);
    var first, second := Fact(t1, q, a), Fact(t2, q, a);
    var s0 := State(map[], [Idle], [], []);
    var s1 := Step(s0, Call(0, t1, q));
    var s2 := Step(s1, Backend(0, a));
    var s3 := Step(s2, Stores(0));
    var s4 := Step(s3, Call(0, t2, q));
    trace := [s0, s1, s2, s3, s4];
    assert [] + [first] == [first] && [first] + [second] == [first, second];
    assert s4.returned == [first, second];
    assert s4.returned[1] in s4.returned;
    assert s2.given == [first] == s3.given == s4.given;
  }
}
