/** File handles stay pinned to the context that opened them, although a freed handle address may be
    handed out again by any slot: the `open_files` map, the sessions and the allocator agree. */
module NfsPoolHandles {
  import opened Libnfs
  import opened NfsPool
  import opened NfsPoolCalls
  import opened NfsPoolLifecycle

  /** The address is allocated and was handed to session `f` on slot `i`. */
  predicate OwnedBy(s: State, fh: nat, i: nat, f: nat) {
    fh in s.alloc && s.alloc[fh] == Owner(i, f)
  }

  predicate FileOk(s: State, f: nat)
    requires f < |s.files|
  {
    match s.files[f]
    case Opening(id) =>
      && id < |s.ops| && s.ops[id].kind == OpenOp(f) && s.ops[id].result.None?
      && (s.ops[id].mailbox != [] && s.ops[id].mailbox[0].status >= 0 && s.ops[id].mailbox[0].ptr != 0 ==>
            OwnedBy(s, s.ops[id].mailbox[0].ptr, s.ops[id].slot, f))
    case Got(fh, i) => OwnedBy(s, fh, i, f)
    case Live(fh, readers) =>
      && fh in s.alloc && s.alloc[fh].file == f
      && (s.shut.Finished? || fh in s.openFiles)
      && forall id :: id in readers ==>
           id < |s.ops| && s.ops[id].kind == ReadOp(f, fh) && s.ops[id].result.None? && s.ops[id].slot == s.alloc[fh].slot
    case Closing(fh, id) =>
      && id < |s.ops| && s.ops[id].kind == CloseOp(f, fh) && s.ops[id].result.None?
      && (!s.ops[id].at.AtLibnfs? && !s.ops[id].at.Gone? ==> OwnedBy(s, fh, s.ops[id].slot, f))
    case _ => true
  }

  predicate SessionOk(s: State, id: nat)
    requires id < |s.ops|
  {
    s.ops[id].result.None? ==>
      match s.ops[id].kind
      case PathOp => true
      case OpenOp(f) => f < |s.files| && s.files[f] == Opening(id)
      case ReadOp(f, fh) => f < |s.files| && s.files[f].Live? && s.files[f].fh == fh && id in s.files[f].readers
      case CloseOp(f, fh) => f < |s.files| && s.files[f] == Closing(fh, id)
  }

  /** A map entry is an allocated handle, mapped to the slot that opened it, of a session that is live. */
  predicate EntryOk(s: State, fh: nat)
    requires fh in s.openFiles
  {
    && fh in s.alloc && s.alloc[fh].slot == s.openFiles[fh]
    && s.alloc[fh].file < |s.files| && s.files[s.alloc[fh].file].Live? && s.files[s.alloc[fh].file].fh == fh
  }

  ghost predicate HandlesOk(s: State) {
    && (forall f :: 0 <= f < |s.files| ==> FileOk(s, f))
    && (forall id :: 0 <= id < |s.ops| ==> SessionOk(s, id))
    && (forall fh :: fh in s.openFiles ==> EntryOk(s, fh))
    && (forall fh :: fh in s.alloc ==> fh != 0 && s.alloc[fh].file < |s.files|)
  }

  lemma {:induction false} CallKeepsHandles(s: State, a: Action)
    requires Inv(s) && HandlesOk(s) && CanStep(s, a) && (a.APath? || a.AOpen?)
    ensures HandlesOk(Step(s, a))
  {
    var s' := Step(s, a);
    forall f | 0 <= f < |s'.files| ensures FileOk(s', f) { if f < |s.files| { assert FileOk(s, f); } }
    forall id | 0 <= id < |s'.ops| ensures SessionOk(s', id) { if id < |s.ops| { assert SessionOk(s, id); } }
    forall fh | fh in s'.openFiles ensures EntryOk(s', fh) { assert EntryOk(s, fh); }
  }

  lemma {:induction false} ReadKeepsHandles(s: State, f: nat, cb: Cb)
    requires Inv(s) && HandlesOk(s) && CanStep(s, ARead(f, cb))
    ensures HandlesOk(CallRead(s, f, cb))
  {
    var s' := CallRead(s, f, cb);
    assert FileOk(s, f);
    assert s.files[f].fh in s.openFiles ==> EntryOk(s, s.files[f].fh);
    forall g | 0 <= g < |s'.files| ensures FileOk(s', g) { assert FileOk(s, g); }
    forall id | 0 <= id < |s'.ops| ensures SessionOk(s', id) { if id < |s.ops| { assert SessionOk(s, id); } }
    forall fh | fh in s'.openFiles ensures EntryOk(s', fh) { assert EntryOk(s, fh); }
  }

  lemma {:induction false} CloseKeepsHandles(s: State, f: nat, cb: Cb)
    requires Inv(s) && HandlesOk(s) && CanStep(s, AClose(f, cb))
    ensures HandlesOk(CallClose(s, f, cb))
  {
    var s' := CallClose(s, f, cb);
    assert FileOk(s, f);
    assert s.files[f].fh in s.openFiles ==> EntryOk(s, s.files[f].fh);
    forall g | 0 <= g < |s'.files| ensures FileOk(s', g) { assert FileOk(s, g); }
    forall id | 0 <= id < |s'.ops| ensures SessionOk(s', id) { if id < |s.ops| { assert SessionOk(s, id); } }
    forall fh | fh in s'.openFiles ensures EntryOk(s', fh) { assert EntryOk(s, fh); }
  }

  /** Steps that only move a call's `Pending` around. */
  lemma {:induction false} MovingKeepsHandles(s: State, s': State, id: nat)
    requires HandlesOk(s) && id < |s.ops| && |s'.ops| == |s.ops|
    requires s'.files == s.files && s'.openFiles == s.openFiles && s'.alloc == s.alloc && s'.shut == s.shut
    requires forall k :: 0 <= k < |s.ops| && k != id ==> s'.ops[k] == s.ops[k]
    requires var op, op' := s.ops[id], s'.ops[id];
      && op'.kind == op.kind && op'.slot == op.slot && op'.result == op.result
      && (op'.mailbox == op.mailbox || (op'.mailbox != [] && op'.mailbox[0].status < 0))
      && (op'.at.AtLibnfs? || op'.at.Gone? || (!op.at.AtLibnfs? && !op.at.Gone?))
    ensures HandlesOk(s')
  {
    forall f | 0 <= f < |s'.files| ensures FileOk(s', f) { assert FileOk(s, f); }
    forall k | 0 <= k < |s'.ops| ensures SessionOk(s', k) { assert SessionOk(s, k); }
    forall fh | fh in s'.openFiles ensures EntryOk(s', fh) { assert EntryOk(s, fh); }
  }

  /** A call returns: its session goes on accordingly. */
  lemma {:induction false} ReturnKeepsHandles(s: State, id: nat, op: Op, r: Reply)
    requires HandlesOk(s) && id < |s.ops| && s.ops[id].result.None?
    requires op.kind == s.ops[id].kind && op.slot == s.ops[id].slot
    requires s.ops[id].mailbox == [r] || r.status < 0
    ensures HandlesOk(Return(s, id, op, r))
  {
    var s' := Return(s, id, op, r);
    assert SessionOk(s, id);
    forall f | 0 <= f < |s'.files| ensures FileOk(s', f) { assert FileOk(s, f); }
    forall k | 0 <= k < |s'.ops| ensures SessionOk(s', k) { assert SessionOk(s, k); }
    forall fh | fh in s'.openFiles ensures EntryOk(s', fh) { assert EntryOk(s, fh); }
  }

  lemma {:induction false} RegisterKeepsHandles(s: State, f: nat)
    requires Inv(s) && HandlesOk(s) && CanStep(s, ARegister(f))
    ensures HandlesOk(Register(s, f))
  {
    var s' := Register(s, f);
    assert FileOk(s, f);
    forall g | 0 <= g < |s'.files| ensures FileOk(s', g) { assert FileOk(s, g); }
    forall k | 0 <= k < |s'.ops| ensures SessionOk(s', k) { assert SessionOk(s, k); }
    forall fh | fh in s'.openFiles ensures EntryOk(s', fh) { if fh in s.openFiles { assert EntryOk(s, fh); } }
  }

  lemma {:induction false} CompleteKeepsHandles(s: State, i: nat, id: nat, r: Response)
    requires Inv(s) && HandlesOk(s) && CanComplete(s, i, id, r)
    ensures HandlesOk(Complete(s, i, id, r))
  {
    var s' := Complete(s, i, id, r);
    assert SlotOk(s, i) && OpOk(s, id) && SessionOk(s, id);
    forall g | 0 <= g < |s'.files| ensures FileOk(s', g) { assert FileOk(s, g); }
    forall k | 0 <= k < |s'.ops| ensures SessionOk(s', k) { assert SessionOk(s, k); }
    forall fh | fh in s'.openFiles ensures EntryOk(s', fh) { assert EntryOk(s, fh); }
  }

  lemma {:induction false} FreeKeepsHandles(s: State, i: nat, id: nat)
    requires Inv(s) && HandlesOk(s) && CanFree(s, i, id)
    ensures HandlesOk(Free(s, id))
  {
    var s' := Free(s, id);
    assert SlotOk(s, i) && OpOk(s, id) && SessionOk(s, id);
    forall g | 0 <= g < |s'.files| ensures FileOk(s', g) { assert FileOk(s, g); }
    forall k | 0 <= k < |s'.ops| ensures SessionOk(s', k) { assert SessionOk(s, k); }
    forall fh | fh in s'.openFiles ensures EntryOk(s', fh) { assert EntryOk(s, fh); }
  }

  lemma {:induction false} ShutdownKeepsHandles(s: State)
    requires Inv(s) && HandlesOk(s) && CanShut(s)
    ensures HandlesOk(Shutdown(s))
  {
    var s' := Shutdown(s);
    forall g | 0 <= g < |s'.files| ensures FileOk(s', g) { assert FileOk(s, g); }
    forall k | 0 <= k < |s'.ops| ensures SessionOk(s', k) { assert SessionOk(s, k); }
    forall fh | fh in s'.openFiles ensures EntryOk(s', fh) { assert EntryOk(s, fh); }
  }

  lemma {:induction false} PendingKeepsHandles(s: State, a: Action)
    requires Inv(s) && HandlesOk(s) && CanStep(s, a)
    requires a.AEnsureStarted? || a.ASend? || a.AReceive? || a.AReceiveNone?
    ensures HandlesOk(Step(s, a))
  {
    var s', id := Step(s, a), a.id;
    var op := s.ops[id];
    assert OpOk(s, id);
    if a.AReceive? {
      assert op.mailbox == [op.mailbox[0]];
      ReturnKeepsHandles(s, id, op.(mailbox := op.mailbox[1..]), op.mailbox[0]);
    } else if a.AReceiveNone? || (a.ASend? && s.slots[op.slot].pc.Exited?) {
      ReturnKeepsHandles(s, id, op.(at := Gone, frees := op.frees + 1), Err(op.cb, -EIO));
    } else {
      MovingKeepsHandles(s, s', id);
    }
  }

  lemma {:induction false} IssueKeepsHandles(s: State, a: Action)
    requires Inv(s) && HandlesOk(s) && CanStep(s, a) && (a.ATake? || a.AMove? || a.AAccept? || a.AReject?)
    ensures HandlesOk(Step(s, a))
  {
    var s' := Step(s, a);
    assert SlotOk(s, a.i);
    if s'.ops == s.ops {
      SlotsOnlyKeepHandles(s, s');
    } else {
      if a.ATake? { assert TaskOk(s, a.i, s.slots[a.i].queue[0]); }
      var id := if a.ATake? then s.slots[a.i].queue[0].id else s.slots[a.i].pc.id;
      assert OpOk(s, id);
      MovingKeepsHandles(s, s', id);
    }
  }

  /** The handles are no concern of the slots. */
  lemma {:induction false} SlotsOnlyKeepHandles(s: State, s': State)
    requires HandlesOk(s) && s' == s.(slots := s'.slots)
    ensures HandlesOk(s')
  {
    forall f | 0 <= f < |s'.files| ensures FileOk(s', f) { assert FileOk(s, f); }
    forall k | 0 <= k < |s'.ops| ensures SessionOk(s', k) { assert SessionOk(s, k); }
    forall fh | fh in s'.openFiles ensures EntryOk(s', fh) { assert EntryOk(s, fh); }
  }

  lemma {:induction false} StepKeepsHandles(s: State, a: Action)
    requires Inv(s) && HandlesOk(s) && CanStep(s, a)
    ensures HandlesOk(Step(s, a))
  {
    match a
    case APath(_, _) => CallKeepsHandles(s, a);
    case AOpen(_, _) => CallKeepsHandles(s, a);
    case ARead(f, cb) => ReadKeepsHandles(s, f, cb);
    case AClose(f, cb) => CloseKeepsHandles(s, f, cb);
    case ARegister(f) => RegisterKeepsHandles(s, f);
    case AComplete(i, id, r) => CompleteKeepsHandles(s, i, id, r);
    case AFree(i, id) => FreeKeepsHandles(s, i, id);
    case AShutdown => ShutdownKeepsHandles(s);
    case _ =>
      if a.ATake? || a.AMove? || a.AAccept? || a.AReject? { IssueKeepsHandles(s, a); } else { PendingKeepsHandles(s, a); }
  }

  lemma {:induction false} RunKeepsHandles(trace: seq<State>, actions: seq<Action>, n: nat)
    requires IsRun(trace, actions) && n < |trace|
    ensures Inv(trace[n]) && HandlesOk(trace[n])
  {
    RunKeepsInv(trace, actions, n);
    if n > 0 {
      RunKeepsHandles(trace, actions, n - 1);
      StepKeepsHandles(trace[n - 1], actions[n - 1]);
    }
  }

  // ---------------------------------------------------------------------------------------------
  // What the invariant says about runs
  // ---------------------------------------------------------------------------------------------

  /** At every moment each key of `open_files` is an allocated handle, never null, mapped to the slot that opened it,
      and until `shutdown` clears the map every live session is registered under exactly its own handle. */
  lemma {:induction false} OpenFilesAgreeWithAllocator(trace: seq<State>, actions: seq<Action>, n: nat)
    requires IsRun(trace, actions) && n < |trace|
    ensures var s := trace[n];
      && (forall fh :: fh in s.openFiles ==> fh != 0 && fh in s.alloc && s.alloc[fh].slot == s.openFiles[fh])
      && (forall f :: 0 <= f < |s.files| && s.files[f].Live? && !s.shut.Finished? ==>
            s.files[f].fh in s.openFiles && s.files[f].fh in s.alloc && s.alloc[s.files[f].fh].file == f)
  {
    var s := trace[n];
    RunKeepsHandles(trace, actions, n);
    forall fh | fh in s.openFiles ensures fh != 0 && fh in s.alloc && s.alloc[fh].slot == s.openFiles[fh] { assert EntryOk(s, fh); }
    forall f | 0 <= f < |s.files| && s.files[f].Live? && !s.shut.Finished?
      ensures s.files[f].fh in s.openFiles && s.files[f].fh in s.alloc && s.alloc[s.files[f].fh].file == f
    {
      assert FileOk(s, f);
    }
  }

  /** `open` never overwrites an entry, although the address it registers may have been used before. */
  lemma {:induction false} RegisterNeverOverwrites(trace: seq<State>, actions: seq<Action>, n: nat)
    requires IsRun(trace, actions) && n < |actions| && actions[n].ARegister?
    ensures trace[n].files[actions[n].f].fh !in trace[n].openFiles
  {
    var s, f := trace[n], actions[n].f;
    RunKeepsHandles(trace, actions, n);
    assert FileOk(s, f);
  }

  /** An entry goes away only by the release of the very session it belongs to, or when `shutdown` clears the
      map: no close of an older session with the same address can remove it. */
  lemma {:induction false} EntriesAreNotLost(trace: seq<State>, actions: seq<Action>, n: nat, fh: nat)
    requires IsRun(trace, actions) && n < |actions| && fh in trace[n].openFiles
    ensures var s, s', a := trace[n], trace[n + 1], actions[n];
      && fh in s.alloc
      && ((a.AClose? && a.f == s.alloc[fh].file) || (a.AShutdown? && s.shut.Clearing?)
          || (fh in s'.openFiles && s'.openFiles[fh] == s.openFiles[fh] && fh in s'.alloc && s'.alloc[fh] == s.alloc[fh]))
  {
    var s, a := trace[n], actions[n];
    RunKeepsHandles(trace, actions, n);
    assert EntryOk(s, fh);
    if a.ARegister? {
      RegisterNeverOverwrites(trace, actions, n);
    } else if a.AClose? {
      assert FileOk(s, a.f);
    } else if a.AFree? {
      FreedIsUnmapped(s, a.i, a.id);
    }
  }

  lemma {:induction false} FreedIsUnmapped(s: State, i: nat, id: nat)
    requires Inv(s) && HandlesOk(s) && CanFree(s, i, id)
    ensures s.ops[id].kind.fh !in s.openFiles
  {
    assert SlotOk(s, i) && OpOk(s, id) && SessionOk(s, id);
    assert s.ops[id].kind.fh in s.openFiles ==> EntryOk(s, s.ops[id].kind.fh);
  }

  /** A read or close being issued is of a handle that this slot has out to the session of the request. */
  ghost predicate IssueOwns(s: State, i: nat)
    requires InIssue(s, i)
  {
    match s.ops[s.slots[i].pc.id].kind
    case ReadOp(f, fh) => OwnedBy(s, fh, i, f)
    case CloseOp(f, fh) => OwnedBy(s, fh, i, f)
    case _ => true
  }

  lemma {:induction false} IssuingOwns(s: State, i: nat)
    requires Inv(s) && HandlesOk(s) && InIssue(s, i)
    ensures IssueOwns(s, i)
  {
    var id := s.slots[i].pc.id;
    assert SlotOk(s, i) && OpOk(s, id) && SessionOk(s, id);
    match s.ops[id].kind
    case ReadOp(f, _) => assert FileOk(s, f);
    case CloseOp(f, _) => assert FileOk(s, f);
    case _ =>
  }

  lemma {:induction false} HeldReadOwns(s: State, i: nat, id: nat)
    requires Inv(s) && HandlesOk(s) && i < |s.slots| && id in s.slots[i].held
    ensures id < |s.ops| && (s.ops[id].kind.ReadOp? ==> OwnedBy(s, s.ops[id].kind.fh, i, s.ops[id].kind.file))
  {
    assert SlotOk(s, i) && OpOk(s, id) && SessionOk(s, id);
    if s.ops[id].kind.ReadOp? { assert FileOk(s, s.ops[id].kind.file); }
  }

  /** Every read and every close is issued on the context that opened its handle, while that handle is still
      allocated to the session the request belongs to. */
  lemma {:induction false} IssuedOnOwningContext(trace: seq<State>, actions: seq<Action>, n: nat, i: nat)
    requires IsRun(trace, actions) && n < |trace| && InIssue(trace[n], i)
    ensures IssueOwns(trace[n], i)
  {
    RunKeepsHandles(trace, actions, n);
    IssuingOwns(trace[n], i);
  }

  /** No use after free: while libnfs holds a read, the handle of the read is allocated to its session. */
  lemma {:induction false} HeldReadsKeepTheirHandle(trace: seq<State>, actions: seq<Action>, n: nat, i: nat, id: nat)
    requires IsRun(trace, actions) && n < |trace| && i < |trace[n].slots| && id in trace[n].slots[i].held
    ensures id < |trace[n].ops|
    ensures trace[n].ops[id].kind.ReadOp? ==> OwnedBy(trace[n], trace[n].ops[id].kind.fh, i, trace[n].ops[id].kind.file)
  {
    RunKeepsHandles(trace, actions, n);
    HeldReadOwns(trace[n], i, id);
  }
}
