/** The connection pool of src/db.rs: its mutable form, one method per critical section, and the monitor as
    a transition system in which any number of threads run `query_retry`/`cmd_retry` calls. */
module ConnPool {
  import opened Wrappers

  /** A connection; `dead` when its socket has failed. */
  datatype Conn = Conn(id: nat, dead: bool)

  /** What the first critical section of `get` decides: hand out an idle connection, connect, or wait. */
  datatype Grant = Idle(conn: Conn) | Connect | Wait

  /** The fields of `PoolState`. */
  datatype Monitor = Monitor(idle: seq<Conn>, created: int)

  function Checkout(m: Monitor, max: nat): (Grant, Monitor) {
    if m.idle != [] then (Idle(m.idle[|m.idle| - 1]), m.(idle := m.idle[..|m.idle| - 1]))
    else if m.created < max then (Connect, m.(created := m.created + 1))
    else (Wait, m)
  }

  function GiveBack(m: Monitor, c: Conn): Monitor {
    m.(idle := m.idle + [c])
  }

  function Uncount(m: Monitor): Monitor {
    m.(created := m.created - 1)
  }

  /** Connections the pool could still hand out without waiting. */
  function Capacity(m: Monitor, max: nat): int {
    |m.idle| + (max - m.created)
  }

  /** The pool as the program sees it; each method is one critical section of `get`, `put` or `discard`, and
      says whether it calls `notify_one`. */
  class Pool {
    const max: nat
    var idle: seq<Conn>
    var created: int

    constructor (max: nat)
      ensures this.max == if max == 0 then 1 else max
      ensures Abs() == Monitor([], 0)
    {
      this.max := if max == 0 then 1 else max;
      idle, created := [], 0;
    }

    function Abs(): Monitor
      reads this
    {
      Monitor(idle, created)
    }

    /** One turn of the loop in `get`, under the lock. */
    method TryCheckout() returns (g: Grant)
      modifies this
      ensures (g, Abs()) == Checkout(old(Abs()), max)
    {
      if idle != [] {
        var c := idle[|idle| - 1];
        idle := idle[..|idle| - 1];
        return Idle(c);
      }
      if created < max {
        created := created + 1;
        return Connect;
      }
      return Wait;
    }

    /** `make` failed: free the slot and notify. */
    method ConnectFailed() returns (notify: bool)
      modifies this
      ensures Abs() == Uncount(old(Abs())) && notify
    {
      created := created - 1;
      notify := true;
    }

    method Put(c: Conn) returns (notify: bool)
      modifies this
      ensures Abs() == GiveBack(old(Abs()), c) && notify
    {
      idle := idle + [c];
      notify := true;
    }

    method Discard() returns (notify: bool)
      modifies this
      ensures Abs() == Uncount(old(Abs())) && notify
    {
      created := created - 1;
      notify := true;
    }

    /** Dropping a `Pooled` guard: a connection marked bad is forgotten, any other one goes back. */
    method DropGuard(c: Conn, bad: bool) returns (notify: bool)
      modifies this
      ensures Abs() == (if bad then Uncount(old(Abs())) else GiveBack(old(Abs()), c)) && notify
    {
      if bad {
        notify := Discard();
      } else {
        notify := Put(c);
      }
    }
  }

  // ---------------------------------------------------------------------------------------------
  // The monitor under any interleaving
  // ---------------------------------------------------------------------------------------------

  /** Where a thread is: outside any call, about to lock in `get`, asleep on the condition variable, woken but
      not yet back under the lock, connecting, past a failed connect, holding a guard, dropping a guard. */
  datatype Pc = Out | Entering | Asleep | Woken | Connecting | Failing | Holding(conn: Conn) | Dropping(conn: Conn, bad: bool)

  /** How a query on a connection may end. */
  datatype Outcome = Rows | SqlError | IoError

  /** One thread: `retried` is the flag of its current call, `again` says that the call goes round once more when
      the guard is dropped, `attempts` counts its `get`s, `tracked` marks calls that count for the retry bound,
      and `surfaced` counts the I/O errors that tracked calls of the thread returned. */
  datatype Thread = Thread(pc: Pc, retried: bool, again: bool, tracked: bool, attempts: nat, surfaced: nat)

  /** `made` counts the connections made so far; it numbers them. */
  datatype State = State(m: Monitor, max: nat, threads: seq<Thread>, made: nat)

  predicate Init(s: State) {
    s.max > 0 && s.m == Monitor([], 0) && s.made == 0 &&
    forall t :: 0 <= t < |s.threads| ==> s.threads[t].pc.Out? && s.threads[t].attempts == 0 && !s.threads[t].again
  }

  datatype Action =
    | Begin(t: nat, tracked: bool)                 // a call starts: first `get`
    | Lock(t: nat)                                 // the critical section of `get`, first time or after waking
    | Spurious(t: nat)                             // a spurious wakeup
    | Connected(t: nat, dead: bool)                // `make` succeeds; the connection may be bad from the start
    | ConnectFails(t: nat)                         // `make` fails
    | FailUnlock(t: nat, wake: Option<nat>)        // undo the count, notify one
    | Query(t: nat, outcome: Outcome)              // run the query; decide about the guard and the retry
    | Release(t: nat, wake: Option<nat>)           // drop the guard: `put` or `discard`, notify one
    | Dies(holder: Option<nat>, k: nat)            // a connection dies: with a thread, up to its return, or idle at position k

  /** `notify_one` wakes one sleeper if there is one. */
  predicate CanWake(threads: seq<Thread>, wake: Option<nat>) {
    match wake
    case Some(w) => w < |threads| && threads[w].pc.Asleep?
    case None => forall t :: 0 <= t < |threads| ==> !threads[t].pc.Asleep?
  }

  function Wake(threads: seq<Thread>, wake: Option<nat>): seq<Thread>
    requires CanWake(threads, wake)
  {
    match wake
    case Some(w) => threads[w := threads[w].(pc := Woken)]
    case None => threads
  }

  predicate CanStep(s: State, a: Action) {
    match a
    case Begin(t, _) => t < |s.threads| && s.threads[t].pc.Out?
    case Lock(t) => t < |s.threads| && (s.threads[t].pc.Entering? || s.threads[t].pc.Woken?)
    case Spurious(t) => t < |s.threads| && s.threads[t].pc.Asleep?
    case Connected(t, _) => t < |s.threads| && s.threads[t].pc.Connecting?
    case ConnectFails(t) => t < |s.threads| && s.threads[t].pc.Connecting?
    case FailUnlock(t, wake) => t < |s.threads| && s.threads[t].pc.Failing? && CanWake(s.threads, wake)
    case Query(t, outcome) =>
      // a dead socket fails with an I/O error, a live one does not
      t < |s.threads| && s.threads[t].pc.Holding? && (outcome.IoError? <==> s.threads[t].pc.conn.dead)
    case Release(t, wake) => t < |s.threads| && s.threads[t].pc.Dropping? && CanWake(s.threads, wake)
    case Dies(None, k) => k < |s.m.idle|
    case Dies(Some(t), _) => t < |s.threads| && HasLive(s.threads[t])
  }

  function SetPc(s: State, t: nat, pc: Pc): State
    requires t < |s.threads|
  {
    s.(threads := s.threads[t := s.threads[t].(pc := pc)])
  }

  /** The thread after its query: the guard is dropped; on an I/O error it is marked bad, and the call goes
      round once more if it has not yet, or returns the error. */
  function Queried(th: Thread, outcome: Outcome): Thread
    requires th.pc.Holding?
  {
    var io := outcome.IoError?;
    var again := io && !th.retried;
    th.(pc := Dropping(th.pc.conn, io), retried := th.retried || again, again := again,
        surfaced := th.surfaced + if io && th.retried && th.tracked then 1 else 0)
  }

  /** The thread once its guard is dropped: a second `get`, or out of the call. */
  function Dropped(th: Thread): Thread {
    if th.again then th.(pc := Entering, again := false, attempts := th.attempts + 1)
    else th.(pc := Out)
  }

  function Step(s: State, a: Action): State
    requires CanStep(s, a)
  {
    match a
    case Begin(t, tracked) =>
      s.(threads := s.threads[t := s.threads[t].(pc := Entering, retried := false, again := false, tracked := tracked, attempts := 1)])
    case Lock(t) =>
      var (g, m) := Checkout(s.m, s.max);
      SetPc(s, t, match g case Idle(c) => Holding(c) case Connect => Connecting case Wait => Asleep).(m := m)
    case Spurious(t) => SetPc(s, t, Woken)
    case Connected(t, dead) => SetPc(s, t, Holding(Conn(s.made, dead))).(made := s.made + 1)
    case ConnectFails(t) => SetPc(s, t, Failing)
    case FailUnlock(t, wake) =>
      var woken := Wake(s.threads, wake);
      s.(m := Uncount(s.m), threads := woken[t := woken[t].(pc := Out)])
    case Query(t, outcome) => s.(threads := s.threads[t := Queried(s.threads[t], outcome)])
    case Release(t, wake) =>
      var woken := Wake(s.threads, wake);
      var Dropping(c, bad) := s.threads[t].pc;
      s.(m := if bad then Uncount(s.m) else GiveBack(s.m, c), threads := woken[t := Dropped(woken[t])])
    case Dies(None, k) => s.(m := s.m.(idle := s.m.idle[k := s.m.idle[k].(dead := true)]))
    case Dies(Some(t), _) => SetPc(s, t, s.threads[t].pc.(conn := s.threads[t].pc.conn.(dead := true)))
  }

  ghost predicate IsRun(trace: seq<State>, actions: seq<Action>) {
    && |trace| == |actions| + 1
    && Init(trace[0])
    && forall k :: 0 <= k < |actions| ==> CanStep(trace[k], actions[k]) && trace[k + 1] == Step(trace[k], actions[k])
  }

  // ---------------------------------------------------------------------------------------------
  // Counting threads
  // ---------------------------------------------------------------------------------------------

  /** Number of threads with property `p`. */
  function Count(threads: seq<Thread>, p: Thread -> bool): nat {
    if threads == [] then 0 else (if p(threads[0]) then 1 else 0) + Count(threads[1..], p)
  }

  lemma {:induction false} CountUpdate(threads: seq<Thread>, t: nat, th: Thread, p: Thread -> bool)
    requires t < |threads|
    ensures Count(threads[t := th], p) == Count(threads, p) - (if p(threads[t]) then 1 else 0) + (if p(th) then 1 else 0)
  {
    if t == 0 {
      assert threads[0 := th][1..] == threads[1..];
    } else {
      CountUpdate(threads[1..], t - 1, th, p);
      assert threads[t := th][1..] == threads[1..][t - 1 := th];
    }
  }

  lemma {:induction false} CountZero(threads: seq<Thread>, p: Thread -> bool)
    ensures Count(threads, p) == 0 <==> forall t :: 0 <= t < |threads| ==> !p(threads[t])
  {
    if threads == [] {
    } else {
      CountZero(threads[1..], p);
      assert forall t :: 0 < t < |threads| ==> threads[t] == threads[1..][t - 1];
    }
  }

  /** The thread accounts for one created connection that is not idle. */
  predicate HoldsSlot(th: Thread) {
    th.pc.Connecting? || th.pc.Failing? || th.pc.Holding? || th.pc.Dropping?
  }

  /** The thread has a connection object that still exists; a bad one is freed before `discard` locks. */
  predicate HasLive(th: Thread) {
    th.pc.Holding? || (th.pc.Dropping? && !th.pc.bad)
  }

  predicate IsAsleep(th: Thread) { th.pc.Asleep? }
  predicate IsWoken(th: Thread) { th.pc.Woken? }

  function Slots(s: State): nat { Count(s.threads, HoldsSlot) }
  function Sleepers(s: State): nat { Count(s.threads, IsAsleep) }
  function Wakened(s: State): nat { Count(s.threads, IsWoken) }

  // ---------------------------------------------------------------------------------------------
  // Conservation and wakeups
  // ---------------------------------------------------------------------------------------------

  ghost predicate Inv(s: State) {
    && s.max > 0
    && s.m.created == |s.m.idle| + Slots(s)
    && s.m.created <= s.max
    && (Sleepers(s) > 0 ==> Capacity(s.m, s.max) <= Wakened(s))
  }

  lemma {:induction false} InitEstablishes(s: State)
    requires Init(s)
    ensures Inv(s)
  {
    CountZero(s.threads, HoldsSlot);
    CountZero(s.threads, IsAsleep);
  }

  /** One thread changes: all three counts follow. */
  lemma {:induction false} CountsUpdate(threads: seq<Thread>, t: nat, th: Thread)
    requires t < |threads|
    ensures Count(threads[t := th], HoldsSlot) ==
            Count(threads, HoldsSlot) - (if HoldsSlot(threads[t]) then 1 else 0) + (if HoldsSlot(th) then 1 else 0)
    ensures Count(threads[t := th], IsAsleep) ==
            Count(threads, IsAsleep) - (if IsAsleep(threads[t]) then 1 else 0) + (if IsAsleep(th) then 1 else 0)
    ensures Count(threads[t := th], IsWoken) ==
            Count(threads, IsWoken) - (if IsWoken(threads[t]) then 1 else 0) + (if IsWoken(th) then 1 else 0)
  {
    CountUpdate(threads, t, th, HoldsSlot);
    CountUpdate(threads, t, th, IsAsleep);
    CountUpdate(threads, t, th, IsWoken);
  }

  lemma {:induction false} WakeCounts(threads: seq<Thread>, wake: Option<nat>)
    requires CanWake(threads, wake)
    ensures var woken := Wake(threads, wake);
      && Count(woken, HoldsSlot) == Count(threads, HoldsSlot)
      && (wake.Some? ==> Count(woken, IsAsleep) == Count(threads, IsAsleep) - 1 && Count(woken, IsWoken) == Count(threads, IsWoken) + 1)
      && (wake.None? ==> Count(woken, IsAsleep) == Count(threads, IsAsleep) == 0 && woken == threads)
  {
    match wake
    case Some(w) => CountsUpdate(threads, w, threads[w].(pc := Woken));
    case None => CountZero(threads, IsAsleep);
  }

  lemma {:induction false} NotifyKeepsInv(s: State, a: Action)
    requires Inv(s) && CanStep(s, a) && (a.FailUnlock? || a.Release?)
    ensures Inv(Step(s, a))
  {
    WakeCounts(s.threads, a.wake);
    var woken := Wake(s.threads, a.wake);
    assert woken[a.t].pc == s.threads[a.t].pc;
    CountsUpdate(woken, a.t, Step(s, a).threads[a.t]);
    assert Step(s, a).threads == woken[a.t := Step(s, a).threads[a.t]];
  }

  /** Every step keeps the invariant: under barging, spurious wakeups, failed connects and discards. */
  lemma {:induction false} StepKeepsInv(s: State, a: Action)
    requires Inv(s) && CanStep(s, a)
    ensures Inv(Step(s, a))
  {
    if a.FailUnlock? || a.Release? {
      NotifyKeepsInv(s, a);
    } else if !(a.Dies? && a.holder.None?) {
      var t := if a.Dies? then a.holder.value else a.t;
      CountsUpdate(s.threads, t, Step(s, a).threads[t]);
      assert Step(s, a).threads == s.threads[t := Step(s, a).threads[t]];
    }
  }

  lemma {:induction false} RunKeepsInv(trace: seq<State>, actions: seq<Action>, n: nat)
    requires IsRun(trace, actions) && n < |trace|
    ensures Inv(trace[n])
  {
    if n == 0 {
      InitEstablishes(trace[0]);
    } else {
      RunKeepsInv(trace, actions, n - 1);
      StepKeepsInv(trace[n - 1], actions[n - 1]);
    }
  }

  // ---------------------------------------------------------------------------------------------
  // What the invariant says about runs
  // ---------------------------------------------------------------------------------------------

  lemma {:induction false} CountMonotone(threads: seq<Thread>, p: Thread -> bool, q: Thread -> bool)
    requires forall th :: p(th) ==> q(th)
    ensures Count(threads, p) <= Count(threads, q)
  {
    if threads == [] {
    } else {
      CountMonotone(threads[1..], p, q);
    }
  }

  /** At every moment: `created` counts the idle connections and those of threads that connect, have failed to,
      hold a guard or are dropping one; it never exceeds the maximum; and no more connections exist. */
  lemma {:induction false} Conservation(trace: seq<State>, actions: seq<Action>, n: nat)
    requires IsRun(trace, actions) && n < |trace|
    ensures var s := trace[n];
      && s.m.created == |s.m.idle| + Count(s.threads, HoldsSlot)
      && |s.m.idle| + Count(s.threads, HasLive) <= s.m.created <= s.max
  {
    RunKeepsInv(trace, actions, n);
    CountMonotone(trace[n].threads, HasLive, HoldsSlot);
  }

  /** No lost wakeup: while a thread sleeps, every connection that could be handed out is matched by a woken
      thread that has yet to look, so free capacity never coexists with sleepers only. */
  lemma {:induction false} NoLostWakeup(trace: seq<State>, actions: seq<Action>, n: nat)
    requires IsRun(trace, actions) && n < |trace|
    requires exists t :: 0 <= t < |trace[n].threads| && trace[n].threads[t].pc.Asleep?
    ensures var s := trace[n];
      && Capacity(s.m, s.max) <= Count(s.threads, IsWoken)
      && (s.m.idle != [] || s.m.created < s.max ==> exists t :: 0 <= t < |s.threads| && s.threads[t].pc.Woken?)
  {
    RunKeepsInv(trace, actions, n);
    CountZero(trace[n].threads, IsAsleep);
    CountZero(trace[n].threads, IsWoken);
  }

  /** The action with which an active thread goes on. */
  lemma {:induction false} ActiveThreadMoves(s: State, t: nat) returns (a: Action)
    requires t < |s.threads| && !s.threads[t].pc.Out? && !s.threads[t].pc.Asleep?
    ensures CanStep(s, a) && !a.Begin? && !a.Spurious? && !a.Dies?
  {
    var wake := None;
    if exists w :: 0 <= w < |s.threads| && s.threads[w].pc.Asleep? {
      var w: nat :| w < |s.threads| && s.threads[w].pc.Asleep?;
      wake := Some(w);
    }
    match s.threads[t].pc
    case Connecting => a := ConnectFails(t);
    case Failing => a := FailUnlock(t, wake);
    case Holding(c) => a := Query(t, if c.dead then IoError else Rows);
    case Dropping(_, _) => a := Release(t, wake);
    case _ => a := Lock(t);
  }

  /** The pool cannot deadlock, with any number of threads and even with capacity 1: while a thread sleeps,
      another one inside a call can go on, without new calls, spurious wakeups or the like. */
  lemma {:induction false} SleepersAreNotAlone(trace: seq<State>, actions: seq<Action>, n: nat) returns (a: Action)
    requires IsRun(trace, actions) && n < |trace|
    requires exists t :: 0 <= t < |trace[n].threads| && trace[n].threads[t].pc.Asleep?
    ensures CanStep(trace[n], a) && !a.Begin? && !a.Spurious? && !a.Dies?
  {
    var s := trace[n];
    RunKeepsInv(trace, actions, n);
    CountZero(s.threads, IsAsleep);
    CountZero(s.threads, IsWoken);
    CountZero(s.threads, HoldsSlot);
    var t: nat :| t < |s.threads| && (IsWoken(s.threads[t]) || HoldsSlot(s.threads[t]));
    a := ActiveThreadMoves(s, t);
  }

  // ---------------------------------------------------------------------------------------------
  // Ownership of connections
  // ---------------------------------------------------------------------------------------------

  /** A connection given back is the next one handed out. */
  lemma {:induction false} PutThenGet(m: Monitor, c: Conn, max: nat)
    ensures Checkout(GiveBack(m, c), max) == (Idle(c), m)
  {
    assert (m.idle + [c])[..|m.idle|] == m.idle;
  }

  /** No two of the existing connections, idle or with a thread, are the same. */
  ghost predicate Exclusive(idle: seq<Conn>, threads: seq<Thread>, made: nat) {
    && (forall k :: 0 <= k < |idle| ==> idle[k].id < made)
    && (forall t :: 0 <= t < |threads| && HasLive(threads[t]) ==> threads[t].pc.conn.id < made)
    && (forall j, k :: 0 <= j < k < |idle| ==> idle[j].id != idle[k].id)
    && (forall t, k :: 0 <= t < |threads| && 0 <= k < |idle| && HasLive(threads[t]) ==> threads[t].pc.conn.id != idle[k].id)
    && (forall t, u :: 0 <= t < u < |threads| && HasLive(threads[t]) && HasLive(threads[u]) ==>
          threads[t].pc.conn.id != threads[u].pc.conn.id)
  }

  /** A thread changes without coming into a connection it did not have. */
  lemma {:induction false} ExclusiveMove(idle: seq<Conn>, threads: seq<Thread>, made: nat, t: nat, th: Thread)
    requires Exclusive(idle, threads, made) && t < |threads|
    requires HasLive(th) ==> HasLive(threads[t]) && th.pc.conn.id == threads[t].pc.conn.id
    ensures Exclusive(idle, threads[t := th], made)
  {
  }

  /** A thread without a connection gets the last idle one. */
  lemma {:induction false} ExclusiveTake(idle: seq<Conn>, threads: seq<Thread>, made: nat, t: nat, th: Thread)
    requires Exclusive(idle, threads, made) && t < |threads| && idle != []
    requires HasLive(th) && th.pc.conn == idle[|idle| - 1]
    ensures Exclusive(idle[..|idle| - 1], threads[t := th], made)
  {
  }

  /** A thread gives its connection back. */
  lemma {:induction false} ExclusiveGive(idle: seq<Conn>, threads: seq<Thread>, made: nat, t: nat, th: Thread)
    requires Exclusive(idle, threads, made) && t < |threads| && HasLive(threads[t]) && !HasLive(th)
    ensures Exclusive(idle + [threads[t].pc.conn], threads[t := th], made)
  {
  }

  /** A thread makes a new connection. */
  lemma {:induction false} ExclusiveMake(idle: seq<Conn>, threads: seq<Thread>, made: nat, t: nat, th: Thread)
    requires Exclusive(idle, threads, made) && t < |threads|
    requires HasLive(th) && th.pc.conn.id == made
    ensures Exclusive(idle, threads[t := th], made + 1)
  {
  }

  lemma {:induction false} ExclusiveWake(idle: seq<Conn>, threads: seq<Thread>, made: nat, wake: Option<nat>)
    requires Exclusive(idle, threads, made) && CanWake(threads, wake)
    ensures Exclusive(idle, Wake(threads, wake), made)
  {
    if wake.Some? { ExclusiveMove(idle, threads, made, wake.value, threads[wake.value].(pc := Woken)); }
  }

  lemma {:induction false} UnlockKeepsExclusive(s: State, a: Action)
    requires Exclusive(s.m.idle, s.threads, s.made) && CanStep(s, a) && (a.FailUnlock? || a.Release?)
    ensures Exclusive(Step(s, a).m.idle, Step(s, a).threads, s.made)
  {
    var woken := Wake(s.threads, a.wake);
    ExclusiveWake(s.m.idle, s.threads, s.made, a.wake);
    assert woken[a.t] == s.threads[a.t];
    if a.FailUnlock? {
      ExclusiveMove(s.m.idle, woken, s.made, a.t, woken[a.t].(pc := Out));
    } else if woken[a.t].pc.bad {
      ExclusiveMove(s.m.idle, woken, s.made, a.t, Dropped(woken[a.t]));
    } else {
      ExclusiveGive(s.m.idle, woken, s.made, a.t, Dropped(woken[a.t]));
    }
  }

  lemma {:induction false} LockKeepsExclusive(s: State, t: nat)
    requires Exclusive(s.m.idle, s.threads, s.made) && CanStep(s, Lock(t))
    ensures Exclusive(Step(s, Lock(t)).m.idle, Step(s, Lock(t)).threads, s.made)
  {
    var th := Step(s, Lock(t)).threads[t];
    if s.m.idle != [] {
      ExclusiveTake(s.m.idle, s.threads, s.made, t, th);
    } else {
      ExclusiveMove(s.m.idle, s.threads, s.made, t, th);
    }
  }

  lemma {:induction false} StepKeepsExclusive(s: State, a: Action)
    requires Exclusive(s.m.idle, s.threads, s.made) && CanStep(s, a)
    ensures var s' := Step(s, a); Exclusive(s'.m.idle, s'.threads, s'.made)
  {
    match a
    case Lock(t) => LockKeepsExclusive(s, t);
    case Connected(t, dead) => ExclusiveMake(s.m.idle, s.threads, s.made, t, s.threads[t].(pc := Holding(Conn(s.made, dead))));
    case FailUnlock(_, _) => UnlockKeepsExclusive(s, a);
    case Release(_, _) => UnlockKeepsExclusive(s, a);
    case Dies(None, k) =>
    case Dies(Some(t), _) => ExclusiveMove(s.m.idle, s.threads, s.made, t, Step(s, a).threads[t]);
    case _ => ExclusiveMove(s.m.idle, s.threads, s.made, a.t, Step(s, a).threads[a.t]);
  }

  /** Every connection belongs to the idle list or to exactly one thread, never to two. */
  lemma {:induction false} ConnectionsAreExclusive(trace: seq<State>, actions: seq<Action>, n: nat)
    requires IsRun(trace, actions) && n < |trace|
    ensures Exclusive(trace[n].m.idle, trace[n].threads, trace[n].made)
  {
    if n == 0 {
    } else {
      ConnectionsAreExclusive(trace, actions, n - 1);
      StepKeepsExclusive(trace[n - 1], actions[n - 1]);
    }
  }

  // ---------------------------------------------------------------------------------------------
  // The retry
  // ---------------------------------------------------------------------------------------------

  predicate ThreadOk(th: Thread) {
    && th.attempts <= 2
    && (th.again ==> th.pc.Dropping? && th.pc.bad && th.retried && th.attempts == 1)
    && (!th.pc.Out? ==> th.attempts == if th.retried && !th.again then 2 else 1)
  }

  ghost predicate ThreadsOk(s: State) {
    forall t :: 0 <= t < |s.threads| ==> ThreadOk(s.threads[t])
  }

  /** Each call makes at most two attempts, and it asks for the second connection only after the guard of the
      first is dropped: a thread inside `get` accounts for no connection of the pool. */
  lemma {:induction false} TwoAttempts(trace: seq<State>, actions: seq<Action>, n: nat)
    requires IsRun(trace, actions) && n < |trace|
    ensures ThreadsOk(trace[n])
    ensures forall t :: 0 <= t < |trace[n].threads| ==>
      var th := trace[n].threads[t];
      th.attempts <= 2 && (th.pc.Entering? || th.pc.Asleep? || th.pc.Woken? ==> !HoldsSlot(th))
  {
    if n == 0 {
    } else {
      TwoAttempts(trace, actions, n - 1);
      var s, a := trace[n - 1], actions[n - 1];
      assert trace[n] == Step(s, a);
      forall t | 0 <= t < |trace[n].threads| ensures ThreadOk(trace[n].threads[t]) {
        assert ThreadOk(s.threads[t]);
      }
    }
  }

  predicate IsDead(th: Thread) {
    HasLive(th) && th.pc.conn.dead
  }

  /** A tracked call that has used up a dead connection on its first attempt and not finished its second. */
  predicate HalfWay(th: Thread) {
    th.tracked && th.retried && !th.pc.Out? && (th.pc.Dropping? ==> th.again)
  }

  function Weight(th: Thread): nat {
    2 * th.surfaced + (if HalfWay(th) then 1 else 0) + (if IsDead(th) then 1 else 0)
  }

  function Sum(threads: seq<Thread>, w: Thread -> nat): nat {
    if threads == [] then 0 else w(threads[0]) + Sum(threads[1..], w)
  }

  lemma {:induction false} SumUpdate(threads: seq<Thread>, t: nat, th: Thread, w: Thread -> nat)
    requires t < |threads|
    ensures Sum(threads[t := th], w) == Sum(threads, w) - w(threads[t]) + w(th)
  {
    if t == 0 {
      assert threads[0 := th][1..] == threads[1..];
    } else {
      SumUpdate(threads[1..], t - 1, th, w);
      assert threads[t := th][1..] == threads[1..][t - 1 := th];
    }
  }

  function DeadIn(idle: seq<Conn>): nat {
    if idle == [] then 0 else DeadIn(idle[..|idle| - 1]) + if idle[|idle| - 1].dead then 1 else 0
  }

  lemma {:induction false} DeadInAppend(idle: seq<Conn>, c: Conn)
    ensures DeadIn(idle + [c]) == DeadIn(idle) + if c.dead then 1 else 0
  {
    assert (idle + [c])[..|idle|] == idle;
  }

  function SurfacedBy(th: Thread): nat { th.surfaced }

  /** I/O errors that tracked calls have returned. */
  function Surfaced(s: State): nat {
    Sum(s.threads, SurfacedBy)
  }

  /** Dead connections, idle or checked out. */
  function Dead(s: State): nat {
    DeadIn(s.m.idle) + Count(s.threads, IsDead)
  }

  function Potential(s: State): nat {
    Sum(s.threads, Weight) + DeadIn(s.m.idle)
  }

  /** Connects now yield working connections, nothing else dies, and every call that begins is tracked. */
  predicate Calm(a: Action) {
    !a.Dies? && (a.Connected? ==> !a.dead) && (a.Begin? ==> a.tracked)
  }

  lemma {:induction false} WakeWeighsNothing(threads: seq<Thread>, wake: Option<nat>)
    requires CanWake(threads, wake)
    ensures Sum(Wake(threads, wake), Weight) == Sum(threads, Weight)
  {
    if wake.Some? { SumUpdate(threads, wake.value, threads[wake.value].(pc := Woken), Weight); }
  }

  /** In calm times each step spends potential or keeps it. */
  lemma {:induction false} CalmSpendsPotential(s: State, a: Action)
    requires CanStep(s, a) && Calm(a) && ThreadsOk(s)
    ensures Potential(Step(s, a)) <= Potential(s)
  {
    assert ThreadOk(s.threads[a.t]);
    if a.FailUnlock? || a.Release? {
      UnlockSpendsPotential(s, a);
    } else {
      SumUpdate(s.threads, a.t, Step(s, a).threads[a.t], Weight);
    }
  }

  /** Dropping the guard, or giving up a failed connect, never adds weight. */
  lemma {:induction false} UnlockSpendsPotential(s: State, a: Action)
    requires CanStep(s, a) && (a.FailUnlock? || a.Release?) && ThreadOk(s.threads[a.t])
    ensures Potential(Step(s, a)) <= Potential(s)
  {
    var woken := Wake(s.threads, a.wake);
    WakeWeighsNothing(s.threads, a.wake);
    assert woken[a.t] == s.threads[a.t];
    if a.FailUnlock? {
      SumUpdate(woken, a.t, woken[a.t].(pc := Out), Weight);
    } else {
      SumUpdate(woken, a.t, Dropped(woken[a.t]), Weight);
      DeadInAppend(s.m.idle, woken[a.t].pc.conn);
    }
  }

  lemma {:induction false} CalmRun(trace: seq<State>, actions: seq<Action>, m: nat, n: nat)
    requires IsRun(trace, actions) && m <= n < |trace|
    requires forall k :: m <= k < n ==> Calm(actions[k])
    ensures Potential(trace[n]) <= Potential(trace[m])
    decreases n
  {
    if m == n {
    } else {
      CalmRun(trace, actions, m, n - 1);
      TwoAttempts(trace, actions, n - 1);
      CalmSpendsPotential(trace[n - 1], actions[n - 1]);
    }
  }

  lemma {:induction false} WeightSplits(threads: seq<Thread>)
    ensures 2 * Sum(threads, SurfacedBy) <= Sum(threads, Weight)
    ensures (forall t :: 0 <= t < |threads| ==> !HalfWay(threads[t])) ==>
      Sum(threads, Weight) == 2 * Sum(threads, SurfacedBy) + Count(threads, IsDead)
  {
    if threads == [] {
    } else {
      WeightSplits(threads[1..]);
      assert forall t :: 0 < t < |threads| ==> threads[t] == threads[1..][t - 1];
    }
  }

  /** The retry bound.  From the moment on when connects succeed and nothing else dies, with `d` dead connections
      left idle or checked out, the calls begun afterwards return at most d / 2 I/O errors in total, under any
      interleaving with each other and with the calls still under way. */
  lemma {:induction false} RetryBound(trace: seq<State>, actions: seq<Action>, m: nat, n: nat)
    requires IsRun(trace, actions) && m <= n < |trace|
    requires forall k :: m <= k < n ==> Calm(actions[k])
    requires forall t :: 0 <= t < |trace[m].threads| ==> !trace[m].threads[t].tracked
    ensures Surfaced(trace[n]) <= Surfaced(trace[m]) + Dead(trace[m]) / 2
  {
    CalmRun(trace, actions, m, n);
    WeightSplits(trace[m].threads);
    WeightSplits(trace[n].threads);
  }

  /** How one turn of the retry loop fares: `get` fails to connect, or the query runs. */
  datatype Attempt = NoConnection | Ran(outcome: Outcome)

  datatype CallResult = Returned | Refused | ConnectError | IoFailure

  /** `query_retry`/`cmd_retry`, with the fate of each turn given by the environment.  `dropped` lists the guards in
      the order they are dropped, true for the ones marked bad. */
  method QueryRetry(fate: nat -> Attempt) returns (r: CallResult, attempts: nat, dropped: seq<bool>)
    ensures 1 <= attempts <= 2 && (attempts == 2 <==> fate(0) == Ran(IoError))
    ensures r == IoFailure <==> fate(0) == Ran(IoError) && fate(1) == Ran(IoError)
    ensures r == Returned <==> fate(attempts - 1) == Ran(Rows)
    ensures r == Refused <==> fate(attempts - 1) == Ran(SqlError)
    ensures |dropped| == attempts - (if r == ConnectError then 1 else 0)
    ensures forall k :: 0 <= k < |dropped| ==> dropped[k] == (fate(k) == Ran(IoError))
  {
    var retried := false;
    attempts, dropped := 0, [];
    while true
      invariant attempts == |dropped| == if retried then 1 else 0
      invariant retried ==> fate(0) == Ran(IoError) && dropped == [true]
      decreases !retried
    {
      attempts := attempts + 1;
      var now := fate(attempts - 1);
      if now == NoConnection {
        return ConnectError, attempts, dropped;
      }
      var io := now.outcome == IoError;
      dropped := dropped + [io];
      if now.outcome == Rows {
        return Returned, attempts, dropped;
      }
      if io && !retried {
        retried := true;
        continue;
      }
      return if io then IoFailure else Refused, attempts, dropped;
    }
  }
}
