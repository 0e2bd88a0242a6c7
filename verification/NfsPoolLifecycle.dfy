/** The life cycle of slots: one actor per slot, `Quit` as the last task ever handled, no libnfs call on a
    destroyed context, whatever `shutdown` and the workers interleave. */
module NfsPoolLifecycle {
  import opened Wrappers
  import opened Libnfs
  import opened NfsPool
  import opened NfsPoolCalls

  /** `shutdown` has sent `Quit` to slot `i`. */
  predicate QuitSent(s: State, i: nat) {
    match s.shut
    case Running => false
    case Sending(k) => i < k
    case Clearing => true
    case Finished => true
    case _ => i <= s.shut.i
  }

  /** `shutdown` has destroyed the context of slot `i`. */
  predicate Destroyed(s: State, i: nat) {
    match s.shut
    case Running => false
    case Clearing => true
    case Finished => true
    case _ => i < s.shut.i
  }

  /** The actor of the slot can reach its context no more: it never started, it has returned, or it was
      started late and the first thing it will receive is `Quit`. */
  predicate Harmless(sl: Slot) {
    sl.pc.NotStarted? || sl.pc.Exited? || (sl.pc.Idle? && sl.queue != [] && sl.queue[0].Quit?)
  }

  predicate SlotLife(s: State, i: nat)
    requires i < |s.slots|
  {
    var sl := s.slots[i];
    && (sl.rx <==> sl.pc.NotStarted?)
    && sl.spawned == (if sl.rx then 0 else 1)
    && (sl.alive <==> !Destroyed(s, i))
    && (sl.pc.NotStarted? ==> sl.queue == if QuitSent(s, i) then [Quit] else [])
    && (Destroyed(s, i) || s.shut == Destroying(i) ==> Harmless(sl))
    && (sl.pc.Exited? ==> QuitSent(s, i))
    && (s.shut == Joining(i) ==> !sl.pc.NotStarted?)
    && (!sl.pc.Exited? ==> (QuitSent(s, i) <==> Quit in sl.queue))
  }

  predicate OpLife(s: State, id: nat)
    requires id < |s.ops|
  {
    var op := s.ops[id];
    op.slot < |s.slots| && (op.at.Started? || op.at.Queued? || op.at.Issuing? || op.at.AtLibnfs? ==> !s.slots[op.slot].rx)
  }

  ghost predicate LifeOk(s: State) {
    && (s.shut.Sending? || s.shut.Taking? || s.shut.Joining? || s.shut.Destroying? ==> s.shut.i < |s.slots|)
    && (forall i :: 0 <= i < |s.slots| ==> SlotLife(s, i))
    && (forall id :: 0 <= id < |s.ops| ==> OpLife(s, id))
  }

  lemma {:induction false} AddOpKeepsLife(s: State, s': State, op: Op)
    requires LifeOk(s) && s'.slots == s.slots && s'.ops == s.ops + [op] && s'.shut == s.shut
    requires op.slot < |s.slots| && op.at.Building?
    ensures LifeOk(s')
  {
    forall i | 0 <= i < |s'.slots| ensures SlotLife(s', i) { assert SlotLife(s, i); }
    forall id | 0 <= id < |s'.ops| ensures OpLife(s', id) { if id < |s.ops| { assert OpLife(s, id); } }
  }

  /** A step that starts no actor, moves no `Quit` and leaves dying slots alone keeps the life cycle. */
  lemma {:induction false} SlotChangeKeepsLife(s: State, s': State, i: nat, id: nat)
    requires LifeOk(s) && i < |s.slots| && |s'.slots| == |s.slots| && |s'.ops| == |s.ops| && s'.shut == s.shut
    requires forall j :: 0 <= j < |s.slots| && j != i ==> s'.slots[j] == s.slots[j]
    requires forall k :: 0 <= k < |s.ops| && k != id ==> s'.ops[k] == s.ops[k]
    requires id < |s.ops| ==> OpLife(s', id)
    requires s'.slots[i].rx ==> s.slots[i].rx
    requires SlotLife(s', i)
    ensures LifeOk(s')
  {
    forall j | 0 <= j < |s'.slots| ensures SlotLife(s', j) { assert SlotLife(s, j); }
    forall k | 0 <= k < |s'.ops| ensures OpLife(s', k) { if k != id { assert OpLife(s, k); } }
  }

  lemma {:induction false} WorkerKeepsLife(s: State, a: Action)
    requires LifeOk(s) && CanStep(s, a)
    requires a.AEnsureStarted? || a.ASend? || a.AReceive? || a.AReceiveNone?
    ensures LifeOk(Step(s, a))
  {
    var id := a.id;
    assert OpLife(s, id);
    var i := s.ops[id].slot;
    assert SlotLife(s, i);
    var s' := Step(s, a);
    assert s.slots[i].queue == [Quit] ==> s.slots[i].queue[0] == Quit;
    SlotChangeKeepsLife(s, s', i, id);
  }

  lemma {:induction false} TakeKeepsLife(s: State, i: nat)
    requires LifeOk(s) && CanTake(s, i) && CallsOk(s)
    ensures LifeOk(Take(s, i))
  {
    var s' := Take(s, i);
    var q := s.slots[i].queue;
    assert SlotLife(s, i) && SlotOk(s, i);
    assert q == [q[0]] + q[1..];
    assert q[0] in q && TaskOk(s, i, q[0]);
    SlotChangeKeepsLife(s, s', i, if q[0].Run? then q[0].id else |s.ops|);
  }

  lemma {:induction false} ActorKeepsLife(s: State, a: Action)
    requires LifeOk(s) && CallsOk(s) && CanStep(s, a)
    requires a.AMove? || a.AAccept? || a.AReject? || a.AComplete?
    ensures LifeOk(Step(s, a))
  {
    var i := a.i;
    assert SlotLife(s, i) && SlotOk(s, i);
    var id := if a.AComplete? then a.id else if a.AMove? then |s.ops| else s.slots[i].pc.id;
    assert id < |s.ops| ==> OpLife(s, id);
    SlotChangeKeepsLife(s, Step(s, a), i, id);
  }

  lemma {:induction false} ShutdownKeepsLife(s: State)
    requires LifeOk(s) && CanShut(s) && |s.slots| > 0
    ensures LifeOk(Shutdown(s))
  {
    var s' := Shutdown(s);
    forall i | 0 <= i < |s'.slots| ensures SlotLife(s', i) { assert SlotLife(s, i); }
    forall k | 0 <= k < |s'.ops| ensures OpLife(s', k) { assert OpLife(s, k); }
  }

  // ---------------------------------------------------------------------------------------------
  // The two invariants together, over every step and every run
  // ---------------------------------------------------------------------------------------------

  /** Every slot number kept in the map or by a session is one. */
  ghost predicate IndicesOk(s: State) {
    && (forall h :: h in s.openFiles ==> s.openFiles[h] < |s.slots|)
    && (forall f :: 0 <= f < |s.files| && s.files[f].Got? ==> s.files[f].slot < |s.slots|)
  }

  ghost predicate Inv(s: State) {
    |s.slots| > 0 && CallsOk(s) && LifeOk(s) && IndicesOk(s)
  }

  lemma {:induction false} InitEstablishes(s: State)
    requires Init(s)
    ensures Inv(s)
  {
    forall i | 0 <= i < |s.slots| ensures SlotOk(s, i) && SlotLife(s, i) {}
  }

  lemma {:induction false} IndicesKept(s: State, a: Action)
    requires Inv(s) && CanStep(s, a)
    ensures IndicesOk(Step(s, a)) && |Step(s, a).slots| == |s.slots|
  {
    if a.AReceive? || a.AReceiveNone? || a.ASend? { assert OpOk(s, a.id); }
  }

  lemma {:induction false} CallKeeps(s: State, a: Action)
    requires Inv(s) && CanStep(s, a) && (a.APath? || a.AOpen? || a.ARead? || a.AClose?)
    ensures CallsOk(Step(s, a)) && LifeOk(Step(s, a))
  {
    var s' := Step(s, a);
    if s'.ops == s.ops {
      FilesOnlyKeeps(s, s');
    } else {
      var op := s'.ops[|s.ops|];
      AddOpKeeps(s, s', op);
      AddOpKeepsLife(s, s', op);
    }
  }

  lemma {:induction false} WorkerKeeps(s: State, a: Action)
    requires Inv(s) && CanStep(s, a) && (a.AEnsureStarted? || a.ASend? || a.AReceive? || a.AReceiveNone?)
    ensures CallsOk(Step(s, a)) && LifeOk(Step(s, a))
  {
    WorkerKeepsLife(s, a);
    assert OpOk(s, a.id);
    match a
    case AEnsureStarted(id) => assert SlotLife(s, s.ops[id].slot); EnsureStartedKeeps(s, id);
    case ASend(id) => SendKeeps(s, id);
    case AReceive(id) => ReceiveKeeps(s, id);
    case AReceiveNone(id) => DropPendingKeeps(s, id);
  }

  lemma {:induction false} ActorKeeps(s: State, a: Action)
    requires Inv(s) && CanStep(s, a) && (a.ATake? || a.AMove? || a.AAccept? || a.AReject? || a.AComplete?)
    ensures CallsOk(Step(s, a)) && LifeOk(Step(s, a))
  {
    if !a.ATake? { ActorKeepsLife(s, a); }
    match a
    case ATake(i) => TakeKeeps(s, i); TakeKeepsLife(s, i);
    case AMove(i) => MoveKeeps(s, i);
    case AAccept(i) => AcceptKeeps(s, i);
    case AReject(i, status) => RejectKeeps(s, i, status);
    case AComplete(i, id, r) => CompleteKeeps(s, i, id, r);
  }

  /** Every step of every participant keeps the invariant. */
  lemma {:induction false} StepKeepsInv(s: State, a: Action)
    requires Inv(s) && CanStep(s, a)
    ensures Inv(Step(s, a))
  {
    IndicesKept(s, a);
    if a.APath? || a.AOpen? || a.ARead? || a.AClose? {
      CallKeeps(s, a);
    } else if a.AEnsureStarted? || a.ASend? || a.AReceive? || a.AReceiveNone? {
      WorkerKeeps(s, a);
    } else if a.ATake? || a.AMove? || a.AAccept? || a.AReject? || a.AComplete? {
      ActorKeeps(s, a);
    } else if a.AShutdown? {
      ShutdownKeeps(s);
      ShutdownKeepsLife(s);
    } else {
      FilesOnlyKeeps(s, Step(s, a));
    }
  }

  /** Both invariants speak of slots, calls and `shutdown` only. */
  lemma {:induction false} FilesOnlyKeeps(s: State, s': State)
    requires CallsOk(s) && LifeOk(s) && s'.slots == s.slots && s'.ops == s.ops && s'.shut == s.shut
    ensures CallsOk(s') && LifeOk(s')
  {
    forall i | 0 <= i < |s'.slots| ensures SlotOk(s', i) && SlotLife(s', i) {
      assert SlotOk(s, i) && SlotLife(s, i);
      assert forall t :: TaskOk(s', i, t) == TaskOk(s, i, t);
    }
    forall k | 0 <= k < |s'.ops| ensures OpOk(s', k) && OpLife(s', k) { assert OpOk(s, k) && OpLife(s, k); }
  }

  lemma {:induction false} RunKeepsInv(trace: seq<State>, actions: seq<Action>, n: nat)
    requires IsRun(trace, actions) && n < |trace|
    ensures Inv(trace[n])
  {
    if n == 0 {
      InitEstablishes(trace[0]);
    } else {
      RunKeepsInv(trace, actions, n - 1);
      StepKeepsInv(trace[n - 1], actions[n - 1]);
    }
  }

  // ---------------------------------------------------------------------------------------------
  // What the invariant says about runs
  // ---------------------------------------------------------------------------------------------

  /** The slot whose context a step touches through libnfs, if any: setting credentials and issuing,
      pumping, running a callback, freeing a handle. */
  function Touches(s: State, a: Action): Option<nat>
    requires CanStep(s, a)
  {
    match a
    case ATake(i) => if s.slots[i].queue[0].Run? then Some(i) else None
    case AMove(i) =>
      if s.slots[i].pc.Pump? || s.slots[i].pc.Issue? || (s.slots[i].pc.Check? && s.slots[i].inflight > 0) then Some(i) else None
    case AAccept(i) => Some(i)
    case AReject(i, _) => Some(i)
    case AComplete(i, _, _) => Some(i)
    case AFree(i, _) => Some(i)
    case _ => None
  }

  /** No libnfs call touches a context after `shutdown` destroyed it, and none is under way when it does;
      at most one actor thread is ever spawned for a slot. */
  lemma {:induction false} ContextsAreTouchedAlive(trace: seq<State>, actions: seq<Action>, n: nat)
    requires IsRun(trace, actions) && n < |actions|
    ensures Touches(trace[n], actions[n]).Some? ==>
      var i := Touches(trace[n], actions[n]).value;
      trace[n].slots[i].alive && trace[n].shut != Destroying(i)
    ensures forall i :: 0 <= i < |trace[n].slots| ==> trace[n].slots[i].spawned <= 1
  {
    var s := trace[n];
    RunKeepsInv(trace, actions, n);
    forall i | 0 <= i < |s.slots| ensures s.slots[i].spawned <= 1 { assert SlotLife(s, i); }
    if Touches(s, actions[n]).Some? {
      assert SlotLife(s, Touches(s, actions[n]).value);
    }
  }

  /** When `shutdown` returns, the map is empty, every context is destroyed, and no actor is or will be inside libnfs: each
      never started, has returned, or will receive `Quit` before anything else. */
  lemma {:induction false} ShutdownIsComplete(trace: seq<State>, actions: seq<Action>, n: nat)
    requires IsRun(trace, actions) && n < |actions| && !trace[n].shut.Finished? && trace[n + 1].shut.Finished?
    ensures var s := trace[n + 1];
      && s.openFiles == map[]
      && forall i :: 0 <= i < |s.slots| ==>
           && !s.slots[i].alive
           && (s.slots[i].pc.NotStarted? || s.slots[i].pc.Exited?
               || (s.slots[i].pc.Idle? && s.slots[i].queue != [] && s.slots[i].queue[0].Quit?))
  {
    RunKeepsInv(trace, actions, n + 1);
    var s := trace[n + 1];
    assert s == Step(trace[n], actions[n]);
    forall i | 0 <= i < |s.slots| ensures !s.slots[i].alive && Harmless(s.slots[i]) {
      assert SlotLife(s, i);
    }
  }

  /** The counter counts exactly the requests libnfs holds and the one being issued; it is positive
      whenever it is decremented and zero whenever the actor blocks in `recv`. */
  lemma {:induction false} InflightCountsRequests(trace: seq<State>, actions: seq<Action>, n: nat, i: nat)
    requires IsRun(trace, actions) && n < |trace| && i < |trace[n].slots|
    ensures var sl := trace[n].slots[i];
      && sl.inflight == |sl.held| + (if sl.pc.Issue? && !sl.pc.accepted then 1 else 0)
      && (sl.pc.Idle? ==> sl.inflight == 0 && sl.held == {})
      && (n < |actions| && actions[n].AReject? && actions[n].i == i ==> sl.inflight >= 1)
      && (n < |actions| && actions[n].AComplete? && actions[n].i == i ==> sl.inflight >= 1)
      && (forall id :: 0 <= id < |trace[n].ops| ==>
            (id in sl.held <==> trace[n].ops[id].at.AtLibnfs? && trace[n].ops[id].slot == i))
  {
    RunKeepsInv(trace, actions, n);
    var s := trace[n];
    assert SlotOk(s, i);
    forall id | 0 <= id < |s.ops| ensures id in s.slots[i].held <==> s.ops[id].at.AtLibnfs? && s.ops[id].slot == i {
      assert OpOk(s, id);
    }
  }

  /** Every call that returned got exactly one outcome, its own; its `Pending` was consumed exactly once,
      and a call that has not been answered has not lost its `Pending`. */
  lemma {:induction false} ExactlyOneOutcome(trace: seq<State>, actions: seq<Action>, n: nat, id: nat)
    requires IsRun(trace, actions) && n < |trace| && id < |trace[n].ops|
    ensures var op := trace[n].ops[id];
      && op.frees <= 1
      && (op.result.Some? ==> op.frees == 1 && op.mailbox == [] && IsOutcome(op, op.result.value))
      && (op.frees == 0 ==> op.result.None? && op.mailbox == [])
      && (op.frees == 1 && op.result.None? ==> |op.mailbox| == 1 && IsOutcome(op, op.mailbox[0]))
  {
    RunKeepsInv(trace, actions, n);
    assert OpOk(trace[n], id);
  }

  // ---------------------------------------------------------------------------------------------
  // Nothing behind `Quit` is issued
  // ---------------------------------------------------------------------------------------------

  /** The call comes after `Quit` on its slot: it is still on its way to a channel that already got `Quit`,
      it waits behind `Quit`, its actor has returned, or it has already failed with EIO unissued. */
  predicate Behind(s: State, id: nat)
    requires id < |s.ops| && s.ops[id].slot < |s.slots|
  {
    var op := s.ops[id];
    var sl := s.slots[op.slot];
    match op.at
    case Building => QuitSent(s, op.slot)
    case Started => QuitSent(s, op.slot)
    case Queued =>
      sl.pc.Exited? ||
      exists q, k :: 0 <= q < k < |sl.queue| && sl.queue[q].Quit? && sl.queue[k] == Run(id)
    case Issuing => false
    case AtLibnfs => false
    case Gone => op.verdict.NotIssued? && op.result == Some(Err(op.cb, -EIO))
  }

  /** A step other than its own handling leaves a call alone. */
  lemma {:induction false} OtherCallsUnchanged(s: State, a: Action, id: nat)
    requires Inv(s) && CanStep(s, a) && id < |s.ops|
    requires a.AEnsureStarted? || a.ASend? || a.AReceive? || a.AReceiveNone? || a.AComplete? ==> a.id != id
    requires s.ops[id].at.Queued? ==> !(a.ATake? && s.slots[a.i].queue[0] == Run(id))
    requires !s.ops[id].at.Issuing? && (a.ATake? ==> !s.slots[a.i].pc.Exited?)
    ensures Step(s, a).ops[id] == s.ops[id]
  {
    if a.ATake? || a.AAccept? || a.AReject? {
      assert SlotOk(s, a.i);
      if a.ATake? { assert TaskOk(s, a.i, s.slots[a.i].queue[0]); }
    }
  }

  /** `Quit` stays sent, an actor stays returned, and channels grow at the end until the actor takes a task. */
  ghost predicate Evolves(s: State, a: Action, i: nat, s': State)
    requires i < |s.slots| && i < |s'.slots|
  {
    var sl, sl' := s.slots[i], s'.slots[i];
    && (QuitSent(s, i) ==> QuitSent(s', i))
    && (sl.pc.Exited? ==> sl'.pc.Exited?)
    && (sl'.pc.Exited? || sl.queue <= sl'.queue ||
        (a == ATake(i) && sl.queue != [] && sl.queue[0].Run? && sl'.queue == sl.queue[1..]))
  }

  lemma {:induction false} ShutdownEvolves(s: State, i: nat)
    requires CanShut(s) && i < |s.slots|
    ensures |Shutdown(s).slots| == |s.slots| && Evolves(s, AShutdown, i, Shutdown(s))
  {
  }

  lemma {:induction false} QueueEvolves(s: State, a: Action, i: nat)
    requires Inv(s) && CanStep(s, a) && i < |s.slots|
    ensures |Step(s, a).slots| == |s.slots| && Evolves(s, a, i, Step(s, a))
  {
    IndicesKept(s, a);
    if a.AShutdown? {
      ShutdownEvolves(s, i);
    } else {
      assert Step(s, a).shut == s.shut;
      assert SlotLife(s, i);
    }
  }

  lemma {:induction false} QueuedBehindStays(s: State, a: Action, id: nat)
    requires Inv(s) && CanStep(s, a) && id < |s.ops| && s.ops[id].slot < |s.slots| && Behind(s, id)
    requires s.ops[id].at.Queued? && Step(s, a).ops[id] == s.ops[id]
    ensures Behind(Step(s, a), id)
  {
    var i := s.ops[id].slot;
    QueueEvolves(s, a, i);
    var queue, queue' := s.slots[i].queue, Step(s, a).slots[i].queue;
    if !Step(s, a).slots[i].pc.Exited? {
      var q, k :| 0 <= q < k < |queue| && queue[q].Quit? && queue[k] == Run(id);
      if queue <= queue' {
        assert queue'[q].Quit? && queue'[k] == Run(id);
      } else {
        assert queue'[q - 1].Quit? && queue'[k - 1] == Run(id);
      }
    }
  }

  /** The task an actor takes is not behind `Quit`, and an answered call was at libnfs. */
  lemma {:induction false} HandledIsNotBehind(s: State, a: Action, id: nat)
    requires Inv(s) && CanStep(s, a) && id < |s.ops| && s.ops[id].slot < |s.slots|
    requires (a.ATake? && s.slots[a.i].queue[0] == Run(id)) || (a.AComplete? && a.id == id)
    ensures !Behind(s, id)
  {
    assert SlotOk(s, a.i);
    if a.ATake? {
      assert TaskOk(s, a.i, Run(id));
    }
  }

  lemma {:induction false} BehindStays(s: State, a: Action, id: nat)
    requires Inv(s) && CanStep(s, a) && id < |s.ops| && s.ops[id].slot < |s.slots| && Behind(s, id)
    ensures Step(s, a).ops[id].slot == s.ops[id].slot && Behind(Step(s, a), id)
  {
    assert OpOk(s, id);
    if (a.ATake? && s.slots[a.i].queue[0] == Run(id)) || (a.AComplete? && a.id == id) {
      HandledIsNotBehind(s, a, id);
    } else if a == ASend(id) {
      SendBehind(s, id);
    } else if (a.AEnsureStarted? || a.AReceive? || a.AReceiveNone?) && a.id == id {
      QueueEvolves(s, a, s.ops[id].slot);
    } else {
      OtherCallsUnchanged(s, a, id);
      QueueEvolves(s, a, s.ops[id].slot);
      if s.ops[id].at.Queued? { QueuedBehindStays(s, a, id); }
    }
  }

  lemma {:induction false} SendBehind(s: State, id: nat)
    requires Inv(s) && CanStep(s, ASend(id)) && QuitSent(s, s.ops[id].slot)
    ensures Behind(Send(s, id), id)
  {
    var i := s.ops[id].slot;
    assert OpOk(s, id) && SlotLife(s, i);
    if !s.slots[i].pc.Exited? {
      assert Quit in s.slots[i].queue;
      var q :| 0 <= q < |s.slots[i].queue| && s.slots[i].queue[q] == Quit;
      var queue' := Send(s, id).slots[i].queue;
      assert queue'[q].Quit? && queue'[|queue'| - 1] == Run(id);
    }
  }

  /** A call that comes after `Quit` on its slot is never issued, at no later point of the run, and if it
      returns it returns EIO. */
  lemma {:induction false} NothingBehindQuitIsIssued(trace: seq<State>, actions: seq<Action>, m: nat, n: nat, id: nat)
    requires IsRun(trace, actions) && m <= n < |trace|
    requires id < |trace[m].ops| && trace[m].ops[id].slot < |trace[m].slots| && Behind(trace[m], id)
    ensures id < |trace[n].ops| && trace[n].ops[id].slot < |trace[n].slots| && Behind(trace[n], id)
    ensures var op := trace[n].ops[id];
      !op.at.Issuing? && !op.at.AtLibnfs? && op.verdict.NotIssued? && (op.result.Some? ==> op.result.value.status == -EIO)
  {
    BehindForever(trace, actions, m, n, id);
    BehindInRun(trace, actions, n, id);
  }

  lemma {:induction false} BehindForever(trace: seq<State>, actions: seq<Action>, m: nat, n: nat, id: nat)
    requires IsRun(trace, actions) && m <= n < |trace|
    requires id < |trace[m].ops| && trace[m].ops[id].slot < |trace[m].slots| && Behind(trace[m], id)
    ensures id < |trace[n].ops| && trace[n].ops[id].slot < |trace[n].slots| && Behind(trace[n], id)
    decreases n
  {
    if m == n {
    } else {
      var k: nat := n - 1;
      BehindForever(trace, actions, m, k, id);
      BehindStaysInRun(trace, actions, k, id);
      assert k + 1 == n;
    }
  }

  lemma {:induction false} BehindInRun(trace: seq<State>, actions: seq<Action>, n: nat, id: nat)
    requires IsRun(trace, actions) && n < |trace|
    requires id < |trace[n].ops| && trace[n].ops[id].slot < |trace[n].slots| && Behind(trace[n], id)
    ensures var op := trace[n].ops[id];
      !op.at.Issuing? && !op.at.AtLibnfs? && op.verdict.NotIssued? && (op.result.Some? ==> op.result.value.status == -EIO)
  {
    RunKeepsInv(trace, actions, n);
    BehindIsNotIssued(trace[n], id);
  }

  lemma {:induction false} BehindStaysInRun(trace: seq<State>, actions: seq<Action>, n: nat, id: nat)
    requires IsRun(trace, actions) && n < |actions|
    requires id < |trace[n].ops| && trace[n].ops[id].slot < |trace[n].slots| && Behind(trace[n], id)
    ensures id < |trace[n + 1].ops| && trace[n + 1].ops[id].slot < |trace[n + 1].slots| && Behind(trace[n + 1], id)
  {
    RunKeepsInv(trace, actions, n);
    BehindStays(trace[n], actions[n], id);
  }

  lemma {:induction false} BehindIsNotIssued(s: State, id: nat)
    requires CallsOk(s) && id < |s.ops| && s.ops[id].slot < |s.slots| && Behind(s, id)
    ensures var op := s.ops[id];
      !op.at.Issuing? && !op.at.AtLibnfs? && op.verdict.NotIssued? && (op.result.Some? ==> op.result.value.status == -EIO)
  {
    assert OpOk(s, id);
  }
}
