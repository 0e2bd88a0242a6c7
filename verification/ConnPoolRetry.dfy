/** Retries on dead connections: exactly when a call fails in spite of its retry, and runs in which the retry bound
    is met with equality. */
module ConnPoolRetry {
  import opened Wrappers
  import opened ConnPool

  // ---------------------------------------------------------------------------------------------
  // A call with the pool to itself
  // ---------------------------------------------------------------------------------------------

  /** The two connections that would be handed out next are both dead. */
  predicate LastTwoDead(idle: seq<Conn>) {
    |idle| >= 2 && idle[|idle| - 1].dead && idle[|idle| - 2].dead
  }

  predicate LastDead(idle: seq<Conn>) {
    idle != [] && idle[|idle| - 1].dead
  }

  function ButLast(idle: seq<Conn>): seq<Conn>
    requires idle != []
  {
    idle[..|idle| - 1]
  }

  /** `c` was handed out of `idle`, or made because there was none. */
  predicate Taken(idle: seq<Conn>, c: Conn, left: seq<Conn>) {
    if idle == [] then left == [] && !c.dead else c == idle[|idle| - 1] && left == ButLast(idle)
  }

  /** What the first attempt left: the idle list itself, or the list without the dead connection that was tried. */
  predicate Left(idle: seq<Conn>, retried: bool, left: seq<Conn>) {
    if retried then LastDead(idle) && left == ButLast(idle) else left == idle
  }

  /** The call of thread `th`, begun over `idle` with `before` errors surfaced, while `now` is idle. */
  ghost predicate Stage(idle: seq<Conn>, before: nat, th: Thread, now: seq<Conn>) {
    var after := before + if LastTwoDead(idle) then 1 else 0;
    && th.tracked
    && match th.pc
       case Out => th.surfaced == after
       case Entering => !th.again && th.surfaced == before && Left(idle, th.retried, now)
       case Connecting => !th.again && th.surfaced == before && Left(idle, th.retried, []) && now == []
       case Holding(c) =>
         !th.again && th.surfaced == before && exists left :: Left(idle, th.retried, left) && Taken(left, c, now)
       case Dropping(_, bad) =>
         if th.again then bad && th.retried && th.surfaced == before && Left(idle, true, now) else th.surfaced == after
       case _ => false
  }

  /** Thread `t` goes on with its call, and a connect succeeds. */
  predicate LoneStep(a: Action, t: nat) {
    (a.Lock? || (a.Connected? && !a.dead) || a.Query? || a.Release?) && a.t == t
  }

  ghost predicate Lone(idle: seq<Conn>, before: nat, s: State, t: nat) {
    && t < |s.threads| && s.max > 0
    && Stage(idle, before, s.threads[t], s.m.idle)
    && (!s.threads[t].pc.Out? ==> s.m.created == |s.m.idle| + if HoldsSlot(s.threads[t]) then 1 else 0)
    && forall u :: 0 <= u < |s.threads| && u != t ==> s.threads[u].pc.Out?
  }

  lemma {:induction false} LoneLock(idle: seq<Conn>, before: nat, s: State, t: nat)
    requires Lone(idle, before, s, t) && CanStep(s, Lock(t))
    ensures Lone(idle, before, Step(s, Lock(t)), t)
  {
    var th := s.threads[t];
    var s' := Step(s, Lock(t));
    assert Left(idle, th.retried, s.m.idle);
    if s.m.idle != [] {
      assert Taken(s.m.idle, s'.threads[t].pc.conn, s'.m.idle);
    }
  }

  lemma {:induction false} LoneConnected(idle: seq<Conn>, before: nat, s: State, t: nat)
    requires Lone(idle, before, s, t) && CanStep(s, Connected(t, false))
    ensures Lone(idle, before, Step(s, Connected(t, false)), t)
  {
    assert Left(idle, s.threads[t].retried, []) && Taken([], Conn(s.made, false), s.m.idle);
  }

  lemma {:induction false} LoneQuery(idle: seq<Conn>, before: nat, s: State, t: nat, outcome: Outcome)
    requires Lone(idle, before, s, t) && CanStep(s, Query(t, outcome))
    ensures Lone(idle, before, Step(s, Query(t, outcome)), t)
  {
    var th := s.threads[t];
    var left :| Left(idle, th.retried, left) && Taken(left, th.pc.conn, s.m.idle);
    assert Step(s, Query(t, outcome)).threads[t] == Queried(th, outcome);
  }

  lemma {:induction false} LoneRelease(idle: seq<Conn>, before: nat, s: State, t: nat, wake: Option<nat>)
    requires Lone(idle, before, s, t) && CanStep(s, Release(t, wake))
    ensures Lone(idle, before, Step(s, Release(t, wake)), t)
  {
    assert Wake(s.threads, wake) == s.threads;
    assert Step(s, Release(t, wake)).threads[t] == Dropped(s.threads[t]);
  }

  lemma {:induction false} LoneStepKeeps(idle: seq<Conn>, before: nat, s: State, t: nat, a: Action)
    requires Lone(idle, before, s, t) && CanStep(s, a) && LoneStep(a, t)
    ensures Lone(idle, before, Step(s, a), t)
  {
    match a
    case Lock(_) => LoneLock(idle, before, s, t);
    case Connected(_, _) => LoneConnected(idle, before, s, t);
    case Query(_, outcome) => LoneQuery(idle, before, s, t, outcome);
    case Release(_, wake) => LoneRelease(idle, before, s, t, wake);
  }

  /** A call that has the pool to itself: it begins at `m` while every thread is outside the pool, and goes on alone,
      with connects that succeed. */
  ghost predicate LoneCall(trace: seq<State>, actions: seq<Action>, m: nat, n: nat, t: nat) {
    && IsRun(trace, actions) && m < n < |trace|
    && (forall u :: 0 <= u < |trace[m].threads| ==> trace[m].threads[u].pc.Out?)
    && actions[m] == Begin(t, true)
    && forall k :: m < k < n ==> LoneStep(actions[k], t)
  }

  lemma {:induction false} LoneCallStages(trace: seq<State>, actions: seq<Action>, m: nat, n: nat, t: nat)
    requires LoneCall(trace, actions, m, n, t)
    ensures t < |trace[m].threads| && Lone(trace[m].m.idle, trace[m].threads[t].surfaced, trace[n], t)
    decreases n
  {
    var s := trace[m];
    assert CanStep(s, actions[m]) && trace[m + 1] == Step(s, actions[m]);
    if n == m + 1 {
      RunKeepsInv(trace, actions, m);
      CountZero(s.threads, HoldsSlot);
    } else {
      LoneCallStages(trace, actions, m, n - 1, t);
      LoneStepKeeps(s.m.idle, s.threads[t].surfaced, trace[n - 1], t, actions[n - 1]);
    }
  }

  /** When the retry is not enough: such a call returns an I/O error if and only if the last two idle connections are
      dead when it begins.  In particular it never fails over fewer than two idle connections. */
  lemma {:induction false} CallFailsIff(trace: seq<State>, actions: seq<Action>, m: nat, n: nat, t: nat)
    requires LoneCall(trace, actions, m, n, t) && t < |trace[n].threads| && trace[n].threads[t].pc.Out?
    ensures t < |trace[m].threads|
    ensures trace[n].threads[t].surfaced == trace[m].threads[t].surfaced + 1 <==> LastTwoDead(trace[m].m.idle)
    ensures trace[n].threads[t].surfaced == trace[m].threads[t].surfaced <==> !LastTwoDead(trace[m].m.idle)
  {
    LoneCallStages(trace, actions, m, n, t);
  }

  // ---------------------------------------------------------------------------------------------
  // Runs that meet the bound
  // ---------------------------------------------------------------------------------------------

  ghost predicate RunsTo(s: State, actions: seq<Action>, end: State)
    decreases actions
  {
    if actions == [] then s == end else CanStep(s, actions[0]) && RunsTo(Step(s, actions[0]), actions[1..], end)
  }

  lemma {:induction false} RunsOn(s: State, a: Action, actions: seq<Action>, end: State)
    requires CanStep(s, a) && RunsTo(Step(s, a), actions, end)
    ensures RunsTo(s, [a] + actions, end)
  {
    assert ([a] + actions)[1..] == actions;
  }

  lemma {:induction false} RunsThree(s: State, a: Action, s1: State, b: Action, s2: State, c: Action, s3: State)
    requires CanStep(s, a) && Step(s, a) == s1 && CanStep(s1, b) && Step(s1, b) == s2 && CanStep(s2, c) && Step(s2, c) == s3
    ensures RunsTo(s, [a, b, c], s3)
  {
    RunsOn(s2, c, [], s3);
    RunsOn(s1, b, [c] + [], s3);
    RunsOn(s, a, [b] + ([c] + []), s3);
    assert [a] + ([b] + ([c] + [])) == [a, b, c];
  }

  /** A run goes on with one more action, or with several. */
  lemma {:induction false} Extend(trace: seq<State>, actions: seq<Action>, more: seq<Action>, end: State)
    returns (trace': seq<State>, actions': seq<Action>)
    requires IsRun(trace, actions) && RunsTo(trace[|actions|], more, end)
    ensures IsRun(trace', actions') && actions' == actions + more && trace <= trace' && trace'[|actions'|] == end
    decreases more
  {
    if more == [] {
      trace', actions' := trace, actions;
    } else {
      trace', actions' := trace + [Step(trace[|actions|], more[0])], actions + [more[0]];
      trace', actions' := Extend(trace', actions', more[1..], end);
      assert actions + [more[0]] + more[1..] == actions + more;
    }
  }

  predicate NoSleepers(s: State) {
    forall u :: 0 <= u < |s.threads| ==> !s.threads[u].pc.Asleep?
  }

  /** A thread outside the pool. */
  function Rested(retried: bool, tracked: bool, attempts: nat, surfaced: nat): Thread {
    Thread(Out, retried, false, tracked, attempts, surfaced)
  }

  function SetThread(s: State, t: nat, th: Thread): State
    requires t < |s.threads|
  {
    s.(threads := s.threads[t := th])
  }

  /** A thread makes a new connection and holds it. */
  lemma {:induction false} MakesOne(s: State, t: nat)
    requires t < |s.threads| && s.threads[t].pc.Out? && s.m.idle == [] && s.m.created < s.max
    ensures var th := s.threads[t];
      RunsTo(s, [Begin(t, false), Lock(t), Connected(t, false)],
             SetThread(s, t, Thread(Holding(Conn(s.made, false)), false, false, false, 1, th.surfaced))
               .(m := Monitor([], s.m.created + 1), made := s.made + 1))
  {
    var th := s.threads[t];
    var s1 := SetThread(s, t, Thread(Entering, false, false, false, 1, th.surfaced));
    var s2 := SetThread(s, t, Thread(Connecting, false, false, false, 1, th.surfaced)).(m := Monitor([], s.m.created + 1));
    var s3 := SetThread(s, t, Thread(Holding(Conn(s.made, false)), false, false, false, 1, th.surfaced))
                .(m := Monitor([], s.m.created + 1), made := s.made + 1);
    assert Step(s, Begin(t, false)) == s1;
    assert Step(s1, Lock(t)) == s2;
    assert Step(s2, Connected(t, false)) == s3;
    RunsThree(s, Begin(t, false), s1, Lock(t), s2, Connected(t, false), s3);
  }

  /** A thread that holds a working connection gives it back after its query. */
  lemma {:induction false} ReturnsOne(s: State, t: nat, c: Conn)
    requires t < |s.threads| && s.threads[t] == Thread(Holding(c), false, false, false, 1, 0) && !c.dead && NoSleepers(s)
    ensures RunsTo(s, [Query(t, Rows), Release(t, None)], SetThread(s, t, Rested(false, false, 1, 0)).(m := GiveBack(s.m, c)))
  {
    var s1 := SetThread(s, t, Thread(Dropping(c, false), false, false, false, 1, 0));
    var s2 := SetThread(s, t, Rested(false, false, 1, 0)).(m := GiveBack(s.m, c));
    assert Step(s, Query(t, Rows)) == s1;
    assert Step(s1, Release(t, None)) == s2;
    RunsOn(s1, Release(t, None), [], s2);
    RunsOn(s, Query(t, Rows), [Release(t, None)] + [], s2);
    assert [Query(t, Rows)] + ([Release(t, None)] + []) == [Query(t, Rows), Release(t, None)];
  }

  /** One attempt on a dead connection: locked, tried and given up. */
  lemma {:induction false} TriesOne(s: State, t: nat, retried: bool, surfaced: nat)
    requires t < |s.threads| && NoSleepers(s) && LastDead(s.m.idle)
    requires s.threads[t] == Thread(Entering, retried, false, true, if retried then 2 else 1, surfaced)
    ensures RunsTo(s, [Lock(t), Query(t, IoError), Release(t, None)],
                   SetThread(s, t, if retried then Rested(true, true, 2, surfaced + 1) else Thread(Entering, true, false, true, 2, surfaced))
                     .(m := Monitor(ButLast(s.m.idle), s.m.created - 1)))
  {
    var c, n := s.m.idle[|s.m.idle| - 1], if retried then 2 else 1;
    var s1 := SetThread(s, t, Thread(Holding(c), retried, false, true, n, surfaced)).(m := Monitor(ButLast(s.m.idle), s.m.created));
    var s2 := SetThread(s, t, Thread(Dropping(c, true), true, !retried, true, n, if retried then surfaced + 1 else surfaced))
                .(m := Monitor(ButLast(s.m.idle), s.m.created));
    var s3 := SetThread(s, t, if retried then Rested(true, true, 2, surfaced + 1) else Thread(Entering, true, false, true, 2, surfaced))
                .(m := Monitor(ButLast(s.m.idle), s.m.created - 1));
    assert Step(s, Lock(t)) == s1;
    assert Step(s1, Query(t, IoError)) == s2;
    assert Step(s2, Release(t, None)) == s3;
    RunsThree(s, Lock(t), s1, Query(t, IoError), s2, Release(t, None), s3);
  }

  function Conns(n: nat, dead: nat): (idle: seq<Conn>)
    ensures |idle| == n && forall i :: 0 <= i < n ==> idle[i] == Conn(i, i < dead)
  {
    seq(n, i requires 0 <= i => Conn(i, i < dead))
  }

  /** The first `k` of `n` threads are in one state, the others in another. */
  function Threads(n: nat, k: nat, first: nat -> Thread, others: nat -> Thread): (threads: seq<Thread>)
    ensures |threads| == n && forall i :: 0 <= i < n ==> threads[i] == if i < k then first(i) else others(i)
  {
    seq(n, i requires 0 <= i => if i < k then first(i) else others(i))
  }

  function Holder(i: nat): Thread { Thread(Holding(Conn(i, false)), false, false, false, 1, 0) }
  function New(i: nat): Thread { Thread(Out, false, false, false, 0, 0) }
  function Done(i: nat): Thread { Rested(false, false, 1, 0) }

  /** `d` threads, the first `k` of which hold a connection. */
  function Filled(d: nat, max: nat, k: nat): State {
    State(Monitor([], k), max, Threads(d, k, Holder, New), k)
  }

  /** The first `k` of them have given theirs back. */
  function Returned(d: nat, max: nat, k: nat): State {
    State(Monitor(Conns(k, 0), d), max, Threads(d, k, Done, Holder), d)
  }

  /** All have, and the first `k` idle connections are dead. */
  function Dying(d: nat, max: nat, k: nat): State {
    State(Monitor(Conns(d, k), d), max, Threads(d, d, Done, Done), d)
  }

  /** `j` calls of the first thread have failed since. */
  function Failed(d: nat, max: nat, j: nat): State
    requires 2 * j <= d
  {
    State(Monitor(Conns(d - 2 * j, d), d - 2 * j), max,
          Threads(d, 1, if j == 0 then Done else i => Rested(true, true, 2, j), Done), d)
  }

  lemma {:induction false} FillRun(d: nat, max: nat, k: nat) returns (trace: seq<State>, actions: seq<Action>)
    requires k <= d <= max && 0 < d
    ensures IsRun(trace, actions) && trace[|actions|] == Filled(d, max, k)
  {
    if k == 0 {
      trace, actions := [Filled(d, max, 0)], [];
    } else {
      trace, actions := FillRun(d, max, k - 1);
      MakesOne(Filled(d, max, k - 1), k - 1);
      var end := SetThread(Filled(d, max, k - 1), k - 1, Thread(Holding(Conn(k - 1, false)), false, false, false, 1, 0))
                   .(m := Monitor([], k), made := k);
      assert end.threads == Filled(d, max, k).threads;
      trace, actions := Extend(trace, actions, [Begin(k - 1, false), Lock(k - 1), Connected(k - 1, false)], Filled(d, max, k));
    }
  }

  lemma {:induction false} ReturnRun(d: nat, max: nat, k: nat) returns (trace: seq<State>, actions: seq<Action>)
    requires k <= d <= max && 0 < d
    ensures IsRun(trace, actions) && trace[|actions|] == Returned(d, max, k)
  {
    if k == 0 {
      trace, actions := FillRun(d, max, d);
      assert Filled(d, max, d).threads == Returned(d, max, 0).threads;
    } else {
      trace, actions := ReturnRun(d, max, k - 1);
      var s := Returned(d, max, k - 1);
      assert forall u :: 0 <= u < d ==> s.threads[u].pc.Out? || s.threads[u].pc.Holding?;
      ReturnsOne(s, k - 1, Conn(k - 1, false));
      assert SetThread(s, k - 1, Rested(false, false, 1, 0)).threads == Returned(d, max, k).threads;
      assert GiveBack(s.m, Conn(k - 1, false)).idle == Returned(d, max, k).m.idle;
      trace, actions := Extend(trace, actions, [Query(k - 1, Rows), Release(k - 1, None)], Returned(d, max, k));
    }
  }

  lemma {:induction false} DyingRun(d: nat, max: nat, k: nat) returns (trace: seq<State>, actions: seq<Action>)
    requires k <= d <= max && 0 < d
    ensures IsRun(trace, actions) && trace[|actions|] == Dying(d, max, k)
  {
    if k == 0 {
      trace, actions := ReturnRun(d, max, d);
      assert Returned(d, max, d).threads == Dying(d, max, 0).threads;
      assert Returned(d, max, d).m.idle == Dying(d, max, 0).m.idle;
    } else {
      trace, actions := DyingRun(d, max, k - 1);
      var s := Dying(d, max, k - 1);
      assert Step(s, Dies(None, k - 1)).m.idle == Dying(d, max, k).m.idle;
      RunsOn(s, Dies(None, k - 1), [], Dying(d, max, k));
      assert [Dies(None, k - 1)] + [] == [Dies(None, k - 1)];
      trace, actions := Extend(trace, actions, [Dies(None, k - 1)], Dying(d, max, k));
    }
  }

  /** What one failing call does: both of its attempts are on dead connections. */
  const FAILING_CALL: seq<Action> :=
    [Begin(0, true), Lock(0), Query(0, IoError), Release(0, None), Lock(0), Query(0, IoError), Release(0, None)]

  lemma {:induction false} FailsOne(s: State)
    requires |s.threads| > 0 && s.threads[0].pc.Out? && NoSleepers(s) && LastTwoDead(s.m.idle)
    ensures RunsTo(s, FAILING_CALL,
                   SetThread(s, 0, Rested(true, true, 2, s.threads[0].surfaced + 1))
                     .(m := Monitor(ButLast(ButLast(s.m.idle)), s.m.created - 2)))
  {
    var n := s.threads[0].surfaced;
    var s1 := SetThread(s, 0, Thread(Entering, false, false, true, 1, n));
    var s2 := SetThread(s, 0, Thread(Entering, true, false, true, 2, n)).(m := Monitor(ButLast(s.m.idle), s.m.created - 1));
    var s3 := SetThread(s, 0, Rested(true, true, 2, n + 1)).(m := Monitor(ButLast(ButLast(s.m.idle)), s.m.created - 2));
    var half := [Lock(0), Query(0, IoError), Release(0, None)];
    assert Step(s, Begin(0, true)) == s1;
    TriesOne(s1, 0, false, n);
    assert SetThread(s1, 0, Thread(Entering, true, false, true, 2, n)).(m := s2.m) == s2;
    TriesOne(s2, 0, true, n);
    assert SetThread(s2, 0, Rested(true, true, 2, n + 1)).(m := s3.m) == s3;
    RunsBoth(s1, half, s2, half, s3);
    RunsOn(s, Begin(0, true), half + half, s3);
    assert [Begin(0, true)] + (half + half) == FAILING_CALL;
  }

  lemma {:induction false} RunsBoth(s: State, a: seq<Action>, mid: State, b: seq<Action>, end: State)
    requires RunsTo(s, a, mid) && RunsTo(mid, b, end)
    ensures RunsTo(s, a + b, end)
    decreases a
  {
    if a == [] {
      assert a + b == b;
    } else {
      RunsBoth(Step(s, a[0]), a[1..], mid, b, end);
      assert (a + b)[1..] == a[1..] + b;
    }
  }

  /** From `m` on connects succeed, nothing dies, and calls are tracked. */
  ghost predicate CalmFrom(actions: seq<Action>, m: nat) {
    forall k :: m <= k < |actions| ==> Calm(actions[k])
  }

  lemma {:induction false} FailedRun(d: nat, max: nat, j: nat) returns (trace: seq<State>, actions: seq<Action>, m: nat)
    requires 0 < d <= max && 2 * j <= d
    ensures IsRun(trace, actions) && m <= |actions| && CalmFrom(actions, m)
    ensures trace[m] == Dying(d, max, d) && trace[|actions|] == Failed(d, max, j)
  {
    if j == 0 {
      trace, actions := DyingRun(d, max, d);
      m := |actions|;
      assert Dying(d, max, d).m.idle == Failed(d, max, 0).m.idle;
      assert Dying(d, max, d).threads == Failed(d, max, 0).threads;
    } else {
      var t0, a0, m0 := FailedRun(d, max, j - 1);
      FailsNext(d, max, j);
      trace, actions := Extend(t0, a0, FAILING_CALL, Failed(d, max, j));
      m := m0;
      CalmMore(a0, m);
      assert trace[m] == t0[m];
    }
  }

  lemma {:induction false} CalmMore(actions: seq<Action>, m: nat)
    requires CalmFrom(actions, m)
    ensures CalmFrom(actions + FAILING_CALL, m)
  {
    forall k | 0 <= k < 7 ensures Calm(FAILING_CALL[k]) {
    }
  }

  lemma {:induction false} FailsNext(d: nat, max: nat, j: nat)
    requires 0 < d && 0 < 2 * j <= d
    ensures RunsTo(Failed(d, max, j - 1), FAILING_CALL, Failed(d, max, j))
  {
    var s, s' := Failed(d, max, j - 1), Failed(d, max, j);
    FailsOne(s);
    assert ButLast(ButLast(s.m.idle)) == s'.m.idle;
    assert s.threads[0 := Rested(true, true, 2, j)] == s'.threads;
  }

  lemma {:induction false} DeadInAll(idle: seq<Conn>)
    requires forall k :: 0 <= k < |idle| ==> idle[k].dead
    ensures DeadIn(idle) == |idle|
  {
    if idle == [] {
    } else {
      DeadInAll(ButLast(idle));
    }
  }

  lemma {:induction false} SurfacedByFirst(threads: seq<Thread>)
    requires threads != [] && forall u :: 0 < u < |threads| ==> threads[u].surfaced == 0
    ensures Sum(threads, SurfacedBy) == threads[0].surfaced
  {
    SumZero(threads[1..], SurfacedBy);
  }

  lemma {:induction false} SumZero(threads: seq<Thread>, w: Thread -> nat)
    requires forall u :: 0 <= u < |threads| ==> w(threads[u]) == 0
    ensures Sum(threads, w) == 0
  {
    if threads == [] {
    } else {
      SumZero(threads[1..], w);
    }
  }

  /** The bound of `RetryBound` is met with equality: for every number of dead connections up to the capacity there is
      a run in which exactly that many are left when the calm begins, and the calls begun afterwards return half as
      many I/O errors, although every new connection would have worked. */
  lemma {:induction false} RetryBoundIsMet(d: nat, max: nat) returns (trace: seq<State>, actions: seq<Action>, m: nat)
    requires 0 < d <= max
    ensures IsRun(trace, actions) && m <= |actions| && CalmFrom(actions, m)
    ensures forall t :: 0 <= t < |trace[m].threads| ==> !trace[m].threads[t].tracked
    ensures trace[m].max == max && Dead(trace[m]) == d
    ensures Surfaced(trace[|actions|]) == Surfaced(trace[m]) + d / 2
  {
    trace, actions, m := FailedRun(d, max, d / 2);
    var s, end := Dying(d, max, d), Failed(d, max, d / 2);
    DeadInAll(s.m.idle);
    CountZero(s.threads, IsDead);
    SurfacedByFirst(s.threads);
    SurfacedByFirst(end.threads);
  }

  /** The retry does not always run on a fresh connection: two threads, each back from a query, two connections dead
      since, and the next call tries both and fails. */
  lemma {:induction false} RetryMayPickAnotherDeadConnection() returns (trace: seq<State>, actions: seq<Action>, m: nat)
    ensures IsRun(trace, actions) && m <= |actions| && CalmFrom(actions, m)
    ensures Dead(trace[m]) == 2 && |trace[m].m.idle| == 2 && trace[m].m.created == 2 == trace[m].max
    ensures Surfaced(trace[|actions|]) == Surfaced(trace[m]) + 1
  {
    trace, actions, m := FailedRun(2, 2, 1);
    var s, end := Dying(2, 2, 2), Failed(2, 2, 1);
    DeadInAll(s.m.idle);
    CountZero(s.threads, IsDead);
    SurfacedByFirst(s.threads);
    SurfacedByFirst(end.threads);
  }
}
