/** The pipelined NFS pool of src/nfscli.rs as a transition system: FUSE workers, one actor per slot,
    libnfs with its handle allocator, and `shutdown`.  Every atomic step is an `Action`; `CanStep` is
    its guard and `Step` its effect, so a run is a sequence of actions and every interleaving is one. */
module NfsPool {
  import opened Wrappers
  import opened Libnfs

  /** What a `run_op` call asks for.  `file` names the FUSE open-file session the call belongs to. */
  datatype Kind = PathOp | OpenOp(file: nat) | ReadOp(file: nat, fh: nat) | CloseOp(file: nat, fh: nat)

  /** Where the `Pending` of a call is: still in the worker before `ensure_started` or before `send`,
      in the slot's channel, inside the issue call, accepted by libnfs, or consumed. */
  datatype At = Building | Started | Queued | Issuing | AtLibnfs | Gone

  /** What libnfs said about the request. */
  datatype Verdict = NotIssued | Rejected(status: int) | Answered(response: Response)

  /** One `run_op` call.  `mailbox` is its private reply channel, `frees` counts how often its `Pending`
      was consumed, `result` is what `run_op` returned. */
  datatype Op = Op(kind: Kind, slot: nat, cb: Cb, at: At, mailbox: seq<Reply>, frees: nat,
                   verdict: Verdict, result: Option<Reply>)

  datatype Task = Quit | Run(id: nat)

  /** Control points of `runner`: blocked in `recv`, the first `try_recv` loop, the in-flight test, inside
      `pump`, the `try_recv` loop after a pump, inside the issue call of `handle_task`, returned. */
  datatype Pc = NotStarted | Idle | Drain | Check | Pump | PumpDrain
              | Issue(id: nat, accepted: bool, pumping: bool) | Exited

  /** One slot: `rx` says whether `SlotState` still owns the receiver, `spawned` counts actor threads,
      `inflight` is the atomic counter, `held` the requests libnfs has accepted and not yet answered,
      `alive` whether the context has not been destroyed. */
  datatype Slot = Slot(rx: bool, spawned: nat, pc: Pc, queue: seq<Task>, inflight: int, held: set<nat>, alive: bool)

  /** One FUSE open-file session, from `yourfs_open` to the end of `yourfs_release`. */
  datatype File = Opening(id: nat)
                | OpenFailed
                | Got(fh: nat, slot: nat)
                | Live(fh: nat, readers: set<nat>)
                | Closing(fh: nat, id: nat)
                | Released

  /** Bookkeeping of the libnfs allocator: who a live handle address was handed to. */
  datatype Owner = Owner(slot: nat, file: nat)

  /** Control points of `shutdown` over the slots. */
  datatype Shut = Running | Sending(i: nat) | Taking(i: nat) | Joining(i: nat) | Destroying(i: nat) | Clearing | Finished

  datatype State = State(slots: seq<Slot>, ops: seq<Op>, files: seq<File>, openFiles: map<nat, nat>,
                         alloc: map<nat, Owner>, shut: Shut)

  predicate Init(s: State) {
    && |s.slots| > 0
    && (forall i :: 0 <= i < |s.slots| ==> s.slots[i] == Slot(true, 0, NotStarted, [], 0, {}, true))
    && s.ops == [] && s.files == [] && s.openFiles == map[] && s.alloc == map[] && s.shut == Running
  }

  // ---------------------------------------------------------------------------------------------
  // Worker steps
  // ---------------------------------------------------------------------------------------------

  function NewOp(kind: Kind, slot: nat, cb: Cb): Op {
    Op(kind, slot, cb, Building, [], 0, NotIssued, None)
  }

  function AddOp(s: State, op: Op): State {
    s.(ops := s.ops + [op])
  }

  function SetSlot(s: State, i: nat, sl: Slot): State
    requires i < |s.slots|
  {
    s.(slots := s.slots[i := sl])
  }

  function SetOp(s: State, id: nat, op: Op): State
    requires id < |s.ops|
  {
    s.(ops := s.ops[id := op])
  }

  /** `open` picks a slot and builds its request; a new session starts. */
  function CallOpen(s: State, slot: nat, cb: Cb): State {
    AddOp(s, NewOp(OpenOp(|s.files|), slot, cb)).(files := s.files + [Opening(|s.ops|)])
  }

  /** `pread`: look the handle up under the map lock, then build the request for that slot.  An unknown
      handle fails with EIO and starts nothing. */
  function CallRead(s: State, f: nat, cb: Cb): State
    requires f < |s.files| && s.files[f].Live?
  {
    var fh := s.files[f].fh;
    if fh !in s.openFiles then s
    else
      AddOp(s, NewOp(ReadOp(f, fh), s.openFiles[fh], cb)).(files := s.files[f := Live(fh, s.files[f].readers + {|s.ops|})])
  }

  /** `close`: remove the map entry under the lock, and only then build the close request. */
  function CallClose(s: State, f: nat, cb: Cb): State
    requires f < |s.files| && s.files[f].Live?
  {
    var fh := s.files[f].fh;
    if fh !in s.openFiles then s.(files := s.files[f := Released])
    else
      AddOp(s, NewOp(CloseOp(f, fh), s.openFiles[fh], cb)).(
        files := s.files[f := Closing(fh, |s.ops|)],
        openFiles := s.openFiles - {fh})
  }

  /** `Slot::ensure_started`: spawn the actor if the receiver is still there. */
  function EnsureStarted(s: State, id: nat): State
    requires id < |s.ops| && s.ops[id].slot < |s.slots|
  {
    var i := s.ops[id].slot;
    var sl := s.slots[i];
    var started := if sl.rx then sl.(rx := false, spawned := sl.spawned + 1, pc := Idle) else sl;
    SetOp(SetSlot(s, i, started), id, s.ops[id].(at := Started))
  }

  /** How the session of a call continues when the call returns `r`. */
  function FileAfter(files: seq<File>, id: nat, op: Op, r: Reply): seq<File> {
    match op.kind
    case PathOp => files
    case OpenOp(f) =>
      if f >= |files| then files
      else files[f := if r.status < 0 || r.ptr == 0 then OpenFailed else Got(r.ptr, op.slot)]
    case ReadOp(f, _) =>
      if f >= |files| || !files[f].Live? then files
      else files[f := files[f].(readers := files[f].readers - {id})]
    case CloseOp(f, _) => if f >= |files| then files else files[f := Released]
  }

  /** `run_op` returns `r`. */
  function Return(s: State, id: nat, op: Op, r: Reply): State
    requires id < |s.ops|
  {
    SetOp(s, id, op.(result := Some(r))).(files := FileAfter(s.files, id, op, r))
  }

  /** The `Pending` is dropped without having been issued; `run_op` returns EIO. */
  function DropPending(s: State, id: nat): State
    requires id < |s.ops|
  {
    var op := s.ops[id];
    Return(s, id, op.(at := Gone, frees := op.frees + 1), Err(op.cb, -EIO))
  }

  /** `slot.tx.send(task)`: fails when the actor has returned and dropped the receiver. */
  function Send(s: State, id: nat): State
    requires id < |s.ops| && s.ops[id].slot < |s.slots|
  {
    var i := s.ops[id].slot;
    var sl := s.slots[i];
    if sl.pc.Exited? then DropPending(s, id)
    else SetOp(SetSlot(s, i, sl.(queue := sl.queue + [Run(id)])), id, s.ops[id].(at := Queued))
  }

  /** `rx.recv()` in `run_op` finds a reply. */
  function Receive(s: State, id: nat): State
    requires id < |s.ops| && s.ops[id].mailbox != []
  {
    var op := s.ops[id];
    Return(s, id, op.(mailbox := op.mailbox[1..]), op.mailbox[0])
  }

  /** `open` registers the handle it got. */
  function Register(s: State, f: nat): State
    requires f < |s.files| && s.files[f].Got?
  {
    var Got(fh, i) := s.files[f];
    s.(openFiles := s.openFiles[fh := i], files := s.files[f := Live(fh, {})])
  }

  // ---------------------------------------------------------------------------------------------
  // Actor steps
  // ---------------------------------------------------------------------------------------------

  function Back(pumping: bool): Pc {
    if pumping then PumpDrain else Drain
  }

  predicate CanTake(s: State, i: nat) {
    i < |s.slots| && s.slots[i].queue != [] && s.slots[i].pc in {Idle, Drain, PumpDrain} &&
    (s.slots[i].queue[0].Run? ==> s.slots[i].queue[0].id < |s.ops|)
  }

  /** `recv`/`try_recv` yields a task and `handle_task` starts on it: `Quit` ends the actor, an operation is
      counted as in flight and handed to its issue call. */
  function Take(s: State, i: nat): State
    requires CanTake(s, i)
  {
    var sl := s.slots[i];
    match sl.queue[0]
    case Quit => SetSlot(s, i, sl.(queue := sl.queue[1..], pc := Exited))
    case Run(id) =>
      SetOp(SetSlot(s, i, sl.(queue := sl.queue[1..], inflight := sl.inflight + 1,
                              pc := Issue(id, false, sl.pc.PumpDrain?))),
            id, s.ops[id].(at := Issuing))
  }

  /** Control moves of the actor that handle no task. */
  function Move(s: State, i: nat): State
    requires i < |s.slots|
  {
    var sl := s.slots[i];
    match sl.pc
    case Drain => SetSlot(s, i, sl.(pc := Check))
    case PumpDrain => SetSlot(s, i, sl.(pc := Check))
    case Check => SetSlot(s, i, sl.(pc := if sl.inflight > 0 then Pump else Idle))
    case Pump => SetSlot(s, i, sl.(pc := PumpDrain))
    case Issue(_, _, pumping) => SetSlot(s, i, sl.(pc := Back(pumping)))
    case _ => s
  }

  predicate CanMove(s: State, i: nat) {
    i < |s.slots| &&
    match s.slots[i].pc
    case Drain => s.slots[i].queue == []
    case PumpDrain => s.slots[i].queue == []
    case Check => true
    case Pump => true
    case Issue(_, accepted, _) => accepted
    case _ => false
  }

  // ---------------------------------------------------------------------------------------------
  // libnfs steps
  // ---------------------------------------------------------------------------------------------

  predicate InIssue(s: State, i: nat) {
    i < |s.slots| && s.slots[i].pc.Issue? && !s.slots[i].pc.accepted && s.slots[i].pc.id < |s.ops|
  }

  /** libnfs queues the request being issued. */
  function Accept(s: State, i: nat): State
    requires InIssue(s, i)
  {
    var sl := s.slots[i];
    var id := sl.pc.id;
    SetOp(SetSlot(s, i, sl.(pc := sl.pc.(accepted := true), held := sl.held + {id})), id, s.ops[id].(at := AtLibnfs))
  }

  /** libnfs refuses the request: `handle_task` uncounts it and completes the `Pending` itself. */
  function Reject(s: State, i: nat, status: int): State
    requires InIssue(s, i)
  {
    var sl := s.slots[i];
    var id := sl.pc.id;
    var op := s.ops[id];
    SetOp(SetSlot(s, i, sl.(pc := Back(sl.pc.pumping), inflight := sl.inflight - 1)), id,
          op.(at := Gone, mailbox := op.mailbox + [Err(op.cb, status)], frees := op.frees + 1, verdict := Rejected(status)))
  }

  /** Does this answer hand out a handle? */
  predicate Opens(op: Op, r: Response) {
    op.kind.OpenOp? && r.status >= 0 && r.data.Fh? && r.data.addr != 0
  }

  /** The callback of a held request runs, inside `nfs_service` or inside an issue call, and `complete`
      sends the reply.  A successful open hands out a handle address that is not allocated now. */
  function Complete(s: State, i: nat, id: nat, r: Response): State
    requires i < |s.slots| && id < |s.ops| && WellFormed(s.ops[id].cb.callback, |s.ops[id].cb.buffer|, r)
  {
    var sl := s.slots[i];
    var op := s.ops[id];
    SetOp(SetSlot(s, i, sl.(held := sl.held - {id}, inflight := sl.inflight - 1)), id,
          op.(at := Gone, mailbox := op.mailbox + [ReplyOf(op.cb, r)], frees := op.frees + 1, verdict := Answered(r)))
    .(alloc := if Opens(op, r) then s.alloc[r.data.addr := Owner(i, op.kind.file)] else s.alloc)
  }

  predicate CanComplete(s: State, i: nat, id: nat, r: Response) {
    && i < |s.slots| && id < |s.ops| && id in s.slots[i].held
    && (s.slots[i].pc.Pump? || s.slots[i].pc.Issue?)
    && WellFormed(s.ops[id].cb.callback, |s.ops[id].cb.buffer|, r)
    && (Opens(s.ops[id], r) ==> r.data.addr !in s.alloc)
  }

  /** While a close is at libnfs the handle it names may be freed; the address is then free for any slot. */
  predicate CanFree(s: State, i: nat, id: nat) {
    && i < |s.slots| && id < |s.ops| && id in s.slots[i].held
    && (s.slots[i].pc.Pump? || s.slots[i].pc.Issue?)
    && s.ops[id].kind.CloseOp? && s.ops[id].kind.fh in s.alloc
    && s.alloc[s.ops[id].kind.fh] == Owner(i, s.ops[id].kind.file)
  }

  function Free(s: State, id: nat): State
    requires id < |s.ops| && s.ops[id].kind.CloseOp?
  {
    s.(alloc := s.alloc - {s.ops[id].kind.fh})
  }

  // ---------------------------------------------------------------------------------------------
  // Shutdown steps
  // ---------------------------------------------------------------------------------------------

  function Enter(s: State, i: nat): Shut {
    if i < |s.slots| then Sending(i) else Clearing
  }

  predicate CanShut(s: State) {
    match s.shut
    case Joining(i) => i < |s.slots| && s.slots[i].pc.Exited?
    case Finished => false
    case Running => true
    case Clearing => true
    case _ => s.shut.i < |s.slots|
  }

  /** One step of `shutdown`: send `Quit`, take the join handle (absent when the actor never started), join,
      destroy the context, go to the next slot; at the end clear the map. */
  function Shutdown(s: State): State
    requires CanShut(s)
  {
    match s.shut
    case Running => s.(shut := Enter(s, 0))
    case Sending(i) =>
      var sl := s.slots[i];
      (if sl.pc.Exited? then s else SetSlot(s, i, sl.(queue := sl.queue + [Quit]))).(shut := Taking(i))
    case Taking(i) => s.(shut := if s.slots[i].pc.NotStarted? then Destroying(i) else Joining(i))
    case Joining(i) => s.(shut := Destroying(i))
    case Destroying(i) => SetSlot(s, i, s.slots[i].(alive := false)).(shut := Enter(s, i + 1))
    case Clearing => s.(shut := Finished, openFiles := map[])
    case Finished => s
  }

  // ---------------------------------------------------------------------------------------------
  // The transition system
  // ---------------------------------------------------------------------------------------------

  datatype Action =
    | APath(slot: nat, cb: Cb)
    | AOpen(slot: nat, cb: Cb)
    | ARead(f: nat, cb: Cb)
    | AClose(f: nat, cb: Cb)
    | AEnsureStarted(id: nat)
    | ASend(id: nat)
    | AReceive(id: nat)
    | AReceiveNone(id: nat)
    | ARegister(f: nat)
    | ATake(i: nat)
    | AMove(i: nat)
    | AAccept(i: nat)
    | AReject(i: nat, status: int)
    | AComplete(i: nat, id: nat, r: Response)
    | AFree(i: nat, id: nat)
    | AShutdown

  /** A fresh `SyncCbData` for the given callback. */
  predicate Fresh(cb: Cb) {
    !cb.finished && cb.status == 0 && cb.ptr == 0
  }

  /** Guards.  A read is issued only on an open file, and the release comes once, after the last read has
      returned: the FUSE contract. */
  predicate CanStep(s: State, a: Action) {
    match a
    case APath(slot, cb) => slot < |s.slots| && Fresh(cb) && !cb.callback.Open?
    case AOpen(slot, cb) => slot < |s.slots| && Fresh(cb) && cb.callback.Open?
    case ARead(f, cb) => f < |s.files| && s.files[f].Live? && Fresh(cb) && cb.callback.Read?
    case AClose(f, cb) => f < |s.files| && s.files[f].Live? && s.files[f].readers == {} && Fresh(cb) && cb.callback.Generic?
    case AEnsureStarted(id) => id < |s.ops| && s.ops[id].slot < |s.slots| && s.ops[id].at.Building?
    case ASend(id) => id < |s.ops| && s.ops[id].slot < |s.slots| && s.ops[id].at.Started?
    case AReceive(id) => id < |s.ops| && s.ops[id].mailbox != [] && s.ops[id].result.None?
    case AReceiveNone(id) =>
      id < |s.ops| && s.ops[id].slot < |s.slots| && s.ops[id].at.Queued? && s.ops[id].mailbox == [] &&
      s.slots[s.ops[id].slot].pc.Exited?
    case ARegister(f) => f < |s.files| && s.files[f].Got?
    case ATake(i) => CanTake(s, i)
    case AMove(i) => CanMove(s, i)
    case AAccept(i) => InIssue(s, i)
    case AReject(i, status) => InIssue(s, i) && status < 0
    case AComplete(i, id, r) => CanComplete(s, i, id, r)
    case AFree(i, id) => CanFree(s, i, id)
    case AShutdown => CanShut(s)
  }

  function Step(s: State, a: Action): State
    requires CanStep(s, a)
  {
    match a
    case APath(slot, cb) => AddOp(s, NewOp(PathOp, slot, cb))
    case AOpen(slot, cb) => CallOpen(s, slot, cb)
    case ARead(f, cb) => CallRead(s, f, cb)
    case AClose(f, cb) => CallClose(s, f, cb)
    case AEnsureStarted(id) => EnsureStarted(s, id)
    case ASend(id) => Send(s, id)
    case AReceive(id) => Receive(s, id)
    case AReceiveNone(id) => DropPending(s, id)
    case ARegister(f) => Register(s, f)
    case ATake(i) => Take(s, i)
    case AMove(i) => Move(s, i)
    case AAccept(i) => Accept(s, i)
    case AReject(i, status) => Reject(s, i, status)
    case AComplete(i, id, r) => Complete(s, i, id, r)
    case AFree(_, id) => Free(s, id)
    case AShutdown => Shutdown(s)
  }

  /** `trace` is a run: it starts in an initial state and takes the given actions one after the other. */
  ghost predicate IsRun(trace: seq<State>, actions: seq<Action>) {
    && |trace| == |actions| + 1
    && Init(trace[0])
    && forall k :: 0 <= k < |actions| ==> CanStep(trace[k], actions[k]) && trace[k + 1] == Step(trace[k], actions[k])
  }
}
