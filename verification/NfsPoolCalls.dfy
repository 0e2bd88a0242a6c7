/** Invariants of the pool about calls and counters: where each `Pending` is, how often it is consumed,
    what each reply says, and what the in-flight counter counts. */
module NfsPoolCalls {
  import opened Libnfs
  import opened NfsPool

  /** The call has not been answered and nothing of its `Pending` has been consumed. */
  predicate Untouched(op: Op) {
    op.mailbox == [] && op.frees == 0 && op.result.None? && op.verdict.NotIssued?
  }

  /** The one reply a caller may get: the callback's view of libnfs's own answer to its own request, the
      refusal status of its own issue call, or EIO for a request that was never issued. */
  predicate IsOutcome(op: Op, r: Reply) {
    match op.verdict
    case NotIssued => r == Reply(-EIO, 0, op.cb.buffer)
    case Rejected(status) => status < 0 && r == Reply(status, 0, op.cb.buffer)
    case Answered(resp) => WellFormed(op.cb.callback, |op.cb.buffer|, resp) && r == ReplyOf(op.cb, resp)
  }

  predicate OpOk(s: State, id: nat)
    requires id < |s.ops|
  {
    var op := s.ops[id];
    && op.slot < |s.slots|
    && Fresh(op.cb)
    && (op.kind.OpenOp? <==> op.cb.callback.Open?)
    && match op.at
       case Building => Untouched(op)
       case Started => Untouched(op)
       case Queued => Untouched(op) && (!s.slots[op.slot].pc.Exited? ==> Run(id) in s.slots[op.slot].queue)
       case Issuing =>
         Untouched(op) && s.slots[op.slot].pc.Issue? && !s.slots[op.slot].pc.accepted && s.slots[op.slot].pc.id == id
       case AtLibnfs => Untouched(op) && id in s.slots[op.slot].held
       case Gone =>
         op.frees == 1 &&
         if op.result.None? then |op.mailbox| == 1 && IsOutcome(op, op.mailbox[0])
         else op.mailbox == [] && IsOutcome(op, op.result.value)
  }

  /** A task in the channel of a running actor is an operation of this slot that waits to be issued. */
  predicate TaskOk(s: State, i: nat, t: Task) {
    t.Run? ==> t.id < |s.ops| && s.ops[t.id].at.Queued? && s.ops[t.id].slot == i
  }

  predicate NoRepeats(queue: seq<Task>) {
    forall j, k :: 0 <= j < k < |queue| ==> queue[j].Quit? || queue[j] != queue[k]
  }

  predicate SlotOk(s: State, i: nat)
    requires i < |s.slots|
  {
    var sl := s.slots[i];
    && (!sl.pc.Exited? ==> NoRepeats(sl.queue) && forall t :: t in sl.queue ==> TaskOk(s, i, t))
    && (forall id :: id in sl.held ==> id < |s.ops| && s.ops[id].at.AtLibnfs? && s.ops[id].slot == i)
    && (sl.pc.Issue? && !sl.pc.accepted ==>
          sl.pc.id < |s.ops| && s.ops[sl.pc.id].at.Issuing? && s.ops[sl.pc.id].slot == i)
    && sl.inflight == |sl.held| + (if sl.pc.Issue? && !sl.pc.accepted then 1 else 0)
    && (sl.pc.Idle? || sl.pc.NotStarted? ==> sl.inflight == 0)
  }

  ghost predicate CallsOk(s: State) {
    && (forall i :: 0 <= i < |s.slots| ==> SlotOk(s, i))
    && (forall id :: 0 <= id < |s.ops| ==> OpOk(s, id))
  }

  lemma {:induction false} AddOpKeeps(s: State, s': State, op: Op)
    requires CallsOk(s) && s'.slots == s.slots && s'.ops == s.ops + [op]
    requires op.slot < |s.slots| && Untouched(op) && op.at.Building? && Fresh(op.cb) && (op.kind.OpenOp? <==> op.cb.callback.Open?)
    ensures CallsOk(s')
  {
    forall i | 0 <= i < |s'.slots| ensures SlotOk(s', i) { assert SlotOk(s, i); }
    forall id | 0 <= id < |s'.ops| ensures OpOk(s', id) { if id < |s.ops| { assert OpOk(s, id); } }
  }

  lemma {:induction false} EnsureStartedKeeps(s: State, id: nat)
    requires CallsOk(s) && CanStep(s, AEnsureStarted(id))
    requires s.slots[s.ops[id].slot].rx ==> s.slots[s.ops[id].slot].pc.NotStarted?
    ensures CallsOk(EnsureStarted(s, id))
  {
    var s' := EnsureStarted(s, id);
    forall i | 0 <= i < |s'.slots| ensures SlotOk(s', i) { assert SlotOk(s, i); }
    forall k | 0 <= k < |s'.ops| ensures OpOk(s', k) { assert OpOk(s, k); assert OpOk(s, id); }
  }

  lemma {:induction false} DropPendingKeeps(s: State, id: nat)
    requires CallsOk(s) && id < |s.ops| && (s.ops[id].at.Started? || s.ops[id].at.Queued?)
    requires s.ops[id].slot < |s.slots| && s.slots[s.ops[id].slot].pc.Exited?
    ensures CallsOk(DropPending(s, id))
  {
    var s' := DropPending(s, id);
    forall i | 0 <= i < |s'.slots| ensures SlotOk(s', i) { assert SlotOk(s, i); }
    forall k | 0 <= k < |s'.ops| ensures OpOk(s', k) { assert OpOk(s, k); assert OpOk(s, id); }
  }

  lemma {:induction false} SendKeeps(s: State, id: nat)
    requires CallsOk(s) && CanStep(s, ASend(id))
    ensures CallsOk(Send(s, id))
  {
    var s' := Send(s, id);
    assert OpOk(s, id);
    if s.slots[s.ops[id].slot].pc.Exited? {
      DropPendingKeeps(s, id);
    } else {
      forall i | 0 <= i < |s'.slots| ensures SlotOk(s', i) {
        assert SlotOk(s, i);
        var q := s.slots[i].queue;
        assert !s.slots[i].pc.Exited? && Run(id) in q ==> TaskOk(s, i, Run(id));
        assert s'.slots[i].queue == q || s'.slots[i].queue == q + [Run(id)];
      }
      forall k | 0 <= k < |s'.ops| ensures OpOk(s', k) { assert OpOk(s, k); }
    }
  }

  lemma {:induction false} ReceiveKeeps(s: State, id: nat)
    requires CallsOk(s) && CanStep(s, AReceive(id))
    ensures CallsOk(Receive(s, id))
  {
    var s' := Receive(s, id);
    assert OpOk(s, id);
    forall i | 0 <= i < |s'.slots| ensures SlotOk(s', i) { assert SlotOk(s, i); }
    forall k | 0 <= k < |s'.ops| ensures OpOk(s', k) { assert OpOk(s, k); }
  }

  /** What is behind the head of a channel is another task. */
  lemma {:induction false} HeadIsTaken(queue: seq<Task>)
    requires queue != [] && NoRepeats(queue)
    ensures queue[0] in queue && NoRepeats(queue[1..])
    ensures forall t :: t in queue ==> t == queue[0] || t in queue[1..]
    ensures forall t :: t in queue[1..] ==> t in queue && (t.Run? ==> t != queue[0])
  {
    assert queue == [queue[0]] + queue[1..];
  }

  lemma {:induction false} TakeKeepsSlot(s: State, i: nat, j: nat)
    requires CallsOk(s) && CanTake(s, i) && j < |s.slots|
    ensures SlotOk(Take(s, i), j)
  {
    assert SlotOk(s, i) && SlotOk(s, j);
    HeadIsTaken(s.slots[i].queue);
    assert TaskOk(s, i, s.slots[i].queue[0]);
  }

  lemma {:induction false} TakeKeepsOp(s: State, i: nat, k: nat)
    requires CallsOk(s) && CanTake(s, i) && k < |s.ops|
    ensures OpOk(Take(s, i), k)
  {
    assert SlotOk(s, i) && OpOk(s, k);
    HeadIsTaken(s.slots[i].queue);
    assert TaskOk(s, i, s.slots[i].queue[0]);
  }

  lemma {:induction false} TakeKeeps(s: State, i: nat)
    requires CallsOk(s) && CanTake(s, i)
    ensures CallsOk(Take(s, i))
  {
    forall j | 0 <= j < |s.slots| ensures SlotOk(Take(s, i), j) { TakeKeepsSlot(s, i, j); }
    forall k | 0 <= k < |s.ops| ensures OpOk(Take(s, i), k) { TakeKeepsOp(s, i, k); }
  }

  /** A control move changes only where the actor is, and not between issuing and idle. */
  lemma {:induction false} MoveIs(s: State, i: nat)
    requires CanMove(s, i)
    ensures var sl, sl' := s.slots[i], Move(s, i).slots[i];
      && Move(s, i) == SetSlot(s, i, sl.(pc := sl'.pc)) && !sl.pc.Exited? && !sl'.pc.Exited?
      && !(sl.pc.Issue? && !sl.pc.accepted) && !sl'.pc.Issue? && !sl'.pc.NotStarted?
      && (sl'.pc.Idle? ==> sl.inflight <= 0)
  {
  }

  lemma {:induction false} PcChangeKeeps(s: State, i: nat, pc: Pc)
    requires CallsOk(s) && i < |s.slots| && !s.slots[i].pc.Exited? && !pc.Exited?
    requires !(s.slots[i].pc.Issue? && !s.slots[i].pc.accepted) && !pc.Issue? && !pc.NotStarted?
    requires pc.Idle? ==> s.slots[i].inflight <= 0
    ensures CallsOk(SetSlot(s, i, s.slots[i].(pc := pc)))
  {
    var s' := SetSlot(s, i, s.slots[i].(pc := pc));
    forall j | 0 <= j < |s'.slots| ensures SlotOk(s', j) {
      assert SlotOk(s, j);
      assert forall t :: TaskOk(s', j, t) == TaskOk(s, j, t);
    }
    forall k | 0 <= k < |s'.ops| ensures OpOk(s', k) { assert OpOk(s, k); }
  }

  lemma {:induction false} MoveKeeps(s: State, i: nat)
    requires CallsOk(s) && CanMove(s, i)
    ensures CallsOk(Move(s, i))
  {
    MoveIs(s, i);
    PcChangeKeeps(s, i, Move(s, i).slots[i].pc);
  }

  lemma {:induction false} AcceptKeepsSlot(s: State, i: nat, j: nat)
    requires CallsOk(s) && InIssue(s, i) && j < |s.slots|
    ensures SlotOk(Accept(s, i), j)
  {
    assert SlotOk(s, i) && SlotOk(s, j);
  }

  lemma {:induction false} AcceptKeeps(s: State, i: nat)
    requires CallsOk(s) && InIssue(s, i)
    ensures CallsOk(Accept(s, i))
  {
    forall j | 0 <= j < |s.slots| ensures SlotOk(Accept(s, i), j) { AcceptKeepsSlot(s, i, j); }
    forall k | 0 <= k < |s.ops| ensures OpOk(Accept(s, i), k) { assert OpOk(s, k) && SlotOk(s, i); }
  }

  lemma {:induction false} RejectKeeps(s: State, i: nat, status: int)
    requires CallsOk(s) && CanStep(s, AReject(i, status))
    ensures CallsOk(Reject(s, i, status))
  {
    var s' := Reject(s, i, status);
    assert SlotOk(s, i);
    forall j | 0 <= j < |s'.slots| ensures SlotOk(s', j) { assert SlotOk(s, j); }
    forall k | 0 <= k < |s'.ops| ensures OpOk(s', k) { assert OpOk(s, k); }
  }

  lemma {:induction false} CompleteKeeps(s: State, i: nat, id: nat, r: Response)
    requires CallsOk(s) && CanComplete(s, i, id, r)
    ensures CallsOk(Complete(s, i, id, r))
  {
    var s' := Complete(s, i, id, r);
    assert SlotOk(s, i) && OpOk(s, id);
    forall j | 0 <= j < |s'.slots| ensures SlotOk(s', j) { assert SlotOk(s, j); }
    forall k | 0 <= k < |s'.ops| ensures OpOk(s', k) { assert OpOk(s, k); }
  }

  /** Appending `Quit` to a channel, or destroying a context, concerns no call. */
  lemma {:induction false} PlainSlotChangeKeeps(s: State, i: nat, sl: Slot, shut: Shut, openFiles: map<nat, nat>)
    requires CallsOk(s) && i < |s.slots|
    requires sl == s.slots[i].(queue := sl.queue, alive := sl.alive)
    requires sl.queue == s.slots[i].queue || sl.queue == s.slots[i].queue + [Quit]
    ensures CallsOk(SetSlot(s, i, sl).(shut := shut, openFiles := openFiles))
  {
    var s' := SetSlot(s, i, sl).(shut := shut, openFiles := openFiles);
    forall j | 0 <= j < |s'.slots| ensures SlotOk(s', j) {
      assert SlotOk(s, j);
      assert forall t :: TaskOk(s', j, t) == TaskOk(s, j, t);
    }
    forall k | 0 <= k < |s'.ops| ensures OpOk(s', k) { assert OpOk(s, k); }
  }

  /** Shutdown touches no call either, whatever it does to the slots. */
  lemma {:induction false} ShutdownKeeps(s: State)
    requires CallsOk(s) && CanShut(s) && |s.slots| > 0
    ensures CallsOk(Shutdown(s))
  {
    var s' := Shutdown(s);
    var i := if s.shut in {Running, Clearing} then 0 else s.shut.i;
    assert s.slots[i := s.slots[i]] == s.slots;
    PlainSlotChangeKeeps(s, i, s'.slots[i], s'.shut, s'.openFiles);
    assert s' == SetSlot(s, i, s'.slots[i]).(shut := s'.shut, openFiles := s'.openFiles);
  }
}
