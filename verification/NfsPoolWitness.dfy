/** A run that goes all the way: a file is opened, registered, read, closed and freed, and the pool is shut down. */
module NfsPoolWitness {
  import opened Wrappers
  import opened Libnfs
  import opened NfsPool

  ghost predicate RunsTo(s: State, actions: seq<Action>, end: State)
    decreases actions
  {
    if actions == [] then s == end else CanStep(s, actions[0]) && RunsTo(Step(s, actions[0]), actions[1..], end)
  }

  lemma {:induction false} RunsOn(s: State, a: Action, s': State, actions: seq<Action>, end: State)
    requires CanStep(s, a) && Step(s, a) == s' && RunsTo(s', actions, end)
    ensures RunsTo(s, [a] + actions, end)
  {
    assert ([a] + actions)[1..] == actions;
  }

  lemma {:induction false} RunsOne(s: State, a: Action, s': State)
    requires CanStep(s, a) && Step(s, a) == s'
    ensures RunsTo(s, [a], s')
  {
    RunsOn(s, a, s', [], s');
    assert [a] + [] == [a];
  }

  lemma {:induction false} RunsBoth(s: State, a: seq<Action>, mid: State, b: seq<Action>, end: State)
    requires RunsTo(s, a, mid) && RunsTo(mid, b, end)
    ensures RunsTo(s, a + b, end)
    decreases a
  {
    if a == [] {
      assert a + b == b;
    } else {
      RunsBoth(Step(s, a[0]), a[1..], mid, b, end);
      RunsOn(s, a[0], Step(s, a[0]), a[1..] + b, end);
      assert [a[0]] + (a[1..] + b) == a + b;
    }
  }

  lemma {:induction false} ExtendOne(trace: seq<State>, actions: seq<Action>, a: Action)
    requires IsRun(trace, actions) && CanStep(trace[|actions|], a)
    ensures IsRun(trace + [Step(trace[|actions|], a)], actions + [a])
  {
  }

  lemma {:induction false} Extend(trace: seq<State>, actions: seq<Action>, more: seq<Action>, end: State)
    returns (trace': seq<State>, actions': seq<Action>)
    requires IsRun(trace, actions) && RunsTo(trace[|actions|], more, end)
    ensures IsRun(trace', actions') && actions' == actions + more && trace <= trace' && trace'[|actions'|] == end
    decreases more
  {
    if more == [] {
      trace', actions' := trace, actions;
    } else {
      var next := Step(trace[|actions|], more[0]);
      ExtendOne(trace, actions, more[0]);
      trace', actions' := Extend(trace + [next], actions + [more[0]], more[1..], end);
      assert actions + [more[0]] + more[1..] == actions + more;
    }
  }

  // ---------------------------------------------------------------------------------------------
  // One call on a pool of one slot, from its task to the answer
  // ---------------------------------------------------------------------------------------------

  /** The only slot, with its actor at `pc`. */
  function At(pc: Pc, queue: seq<Task>, inflight: int, held: set<nat>): Slot {
    Slot(false, 1, pc, queue, inflight, held, true)
  }

  const FRESH: Slot := Slot(true, 0, NotStarted, [], 0, {}, true)
  const IDLE: Slot := Slot(false, 1, Idle, [], 0, {}, true)

  function Put(s: State, id: nat, op: Op, sl: Slot): State
    requires id < |s.ops|
  {
    s.(slots := [sl], ops := s.ops[id := op])
  }

  lemma {:induction false} PutAgain(s: State, id: nat, op: Op, sl: Slot, op': Op, sl': Slot)
    requires id < |s.ops|
    ensures SetOp(SetSlot(Put(s, id, op, sl), 0, sl'), id, op') == Put(s, id, op', sl')
  {
    assert [sl][0 := sl'] == [sl'];
    assert s.ops[id := op][id := op'] == s.ops[id := op'];
  }

  predicate JustCalled(op: Op) {
    op == NewOp(op.kind, 0, op.cb) && Fresh(op.cb)
  }

  lemma {:induction false} Starts(s: State, id: nat)
    requires id < |s.ops| && JustCalled(s.ops[id]) && (s.slots == [FRESH] || s.slots == [IDLE])
    ensures CanStep(s, AEnsureStarted(id))
    ensures Step(s, AEnsureStarted(id)) == Put(s, id, s.ops[id].(at := Started), IDLE)
  {
  }

  lemma {:induction false} IsSent(s: State, id: nat)
    requires id < |s.ops| && JustCalled(s.ops[id])
    ensures var here := Put(s, id, s.ops[id].(at := Started), IDLE);
      CanStep(here, ASend(id)) && Step(here, ASend(id)) == Put(s, id, s.ops[id].(at := Queued), At(Idle, [Run(id)], 0, {}))
  {
    assert [] + [Run(id)] == [Run(id)];
    PutAgain(s, id, s.ops[id].(at := Started), IDLE, s.ops[id].(at := Queued), At(Idle, [Run(id)], 0, {}));
  }

  lemma {:induction false} IsTaken(s: State, id: nat)
    requires id < |s.ops| && JustCalled(s.ops[id])
    ensures var here := Put(s, id, s.ops[id].(at := Queued), At(Idle, [Run(id)], 0, {}));
      CanStep(here, ATake(0)) &&
      Step(here, ATake(0)) == Put(s, id, s.ops[id].(at := Issuing), At(Issue(id, false, false), [], 1, {}))
  {
    assert [Run(id)][1..] == [];
    PutAgain(s, id, s.ops[id].(at := Queued), At(Idle, [Run(id)], 0, {}),
             s.ops[id].(at := Issuing), At(Issue(id, false, false), [], 1, {}));
  }

  lemma {:induction false} IsAccepted(s: State, id: nat)
    requires id < |s.ops| && JustCalled(s.ops[id])
    ensures var here := Put(s, id, s.ops[id].(at := Issuing), At(Issue(id, false, false), [], 1, {}));
      CanStep(here, AAccept(0)) && Step(here, AAccept(0)) == Held(s, id)
  {
    assert {} + {id} == {id};
  }

  /** libnfs holds the call. */
  function Held(s: State, id: nat): State
    requires id < |s.ops|
  {
    Put(s, id, s.ops[id].(at := AtLibnfs), At(Issue(id, true, false), [], 1, {id}))
  }

  function Answer(op: Op, r: Response): Op
    requires WellFormed(op.cb.callback, |op.cb.buffer|, r)
  {
    op.(at := Gone, mailbox := [ReplyOf(op.cb, r)], frees := 1, verdict := Answered(r))
  }

  lemma {:induction false} ReachesLibnfs(s: State, id: nat)
    requires id < |s.ops| && JustCalled(s.ops[id]) && (s.slots == [FRESH] || s.slots == [IDLE])
    ensures RunsTo(s, [AEnsureStarted(id), ASend(id), ATake(0), AAccept(0)], Held(s, id))
  {
    Starts(s, id);
    IsSent(s, id);
    IsTaken(s, id);
    IsAccepted(s, id);
    var s1 := Put(s, id, s.ops[id].(at := Started), IDLE);
    var s2 := Put(s, id, s.ops[id].(at := Queued), At(Idle, [Run(id)], 0, {}));
    var s3 := Put(s, id, s.ops[id].(at := Issuing), At(Issue(id, false, false), [], 1, {}));
    RunsOne(s3, AAccept(0), Held(s, id));
    RunsOn(s2, ATake(0), s3, [AAccept(0)], Held(s, id));
    RunsOn(s1, ASend(id), s2, [ATake(0)] + [AAccept(0)], Held(s, id));
    RunsOn(s, AEnsureStarted(id), s1, [ASend(id)] + ([ATake(0)] + [AAccept(0)]), Held(s, id));
    assert [AEnsureStarted(id)] + ([ASend(id)] + ([ATake(0)] + [AAccept(0)])) == [AEnsureStarted(id), ASend(id), ATake(0), AAccept(0)];
  }

  /** The answer arrives, and the actor goes back to sleep. */
  lemma {:induction false} IsAnswered(s: State, id: nat, r: Response, alloc: map<nat, Owner>)
    requires id < |s.ops| && JustCalled(s.ops[id]) && WellFormed(s.ops[id].cb.callback, |s.ops[id].cb.buffer|, r)
    requires if Opens(s.ops[id], r) then r.data.addr !in s.alloc && alloc == s.alloc[r.data.addr := Owner(0, s.ops[id].kind.file)]
             else alloc == s.alloc
    ensures RunsTo(Held(s, id), [AComplete(0, id, r), AMove(0), AMove(0), AMove(0)],
                   Put(s, id, Answer(s.ops[id], r), IDLE).(alloc := alloc))
  {
    var here := Held(s, id);
    var s1 := Put(s, id, Answer(s.ops[id], r), At(Issue(id, true, false), [], 0, {})).(alloc := alloc);
    var s2 := Put(s, id, Answer(s.ops[id], r), At(Drain, [], 0, {})).(alloc := alloc);
    var s3 := Put(s, id, Answer(s.ops[id], r), At(Check, [], 0, {})).(alloc := alloc);
    var s4 := Put(s, id, Answer(s.ops[id], r), IDLE).(alloc := alloc);
    assert here.slots[0].held - {id} == {};
    assert [] + [ReplyOf(s.ops[id].cb, r)] == [ReplyOf(s.ops[id].cb, r)];
    PutAgain(s, id, s.ops[id].(at := AtLibnfs), At(Issue(id, true, false), [], 1, {id}),
             Answer(s.ops[id], r), At(Issue(id, true, false), [], 0, {}));
    assert Step(here, AComplete(0, id, r)) == s1;
    RunsOne(s3, AMove(0), s4);
    RunsOn(s2, AMove(0), s3, [AMove(0)], s4);
    RunsOn(s1, AMove(0), s2, [AMove(0)] + [AMove(0)], s4);
    RunsOn(here, AComplete(0, id, r), s1, [AMove(0)] + ([AMove(0)] + [AMove(0)]), s4);
    assert [AComplete(0, id, r)] + ([AMove(0)] + ([AMove(0)] + [AMove(0)])) == [AComplete(0, id, r), AMove(0), AMove(0), AMove(0)];
  }

  /** The call once it has returned `reply`. */
  function Returned(op: Op, r: Response, reply: Reply): Op {
    op.(at := Gone, mailbox := [], frees := 1, verdict := Answered(r), result := Some(reply))
  }

  lemma {:induction false} IsReceived(s: State, id: nat, r: Response, alloc: map<nat, Owner>)
    requires id < |s.ops| && JustCalled(s.ops[id]) && WellFormed(s.ops[id].cb.callback, |s.ops[id].cb.buffer|, r)
    ensures var here, reply := Put(s, id, Answer(s.ops[id], r), IDLE).(alloc := alloc), ReplyOf(s.ops[id].cb, r);
      && CanStep(here, AReceive(id))
      && Step(here, AReceive(id)) ==
           Put(s, id, Returned(s.ops[id], r, reply), IDLE).(alloc := alloc, files := FileAfter(s.files, id, s.ops[id], reply))
  {
    var here, reply := Put(s, id, Answer(s.ops[id], r), IDLE).(alloc := alloc), ReplyOf(s.ops[id].cb, r);
    assert [reply][1..] == [];
    assert here.ops[id := Returned(s.ops[id], r, reply)] == s.ops[id := Returned(s.ops[id], r, reply)];
  }

  /** The steps from a call to libnfs, and from its answer to the return. */
  function Going(id: nat): seq<Action> {
    [AEnsureStarted(id), ASend(id), ATake(0), AAccept(0)]
  }

  function Coming(id: nat, r: Response): seq<Action> {
    [AComplete(0, id, r), AMove(0), AMove(0), AMove(0), AReceive(id)]
  }

  lemma {:induction false} ReturnsFromLibnfs(s: State, id: nat, r: Response, alloc: map<nat, Owner>, reply: Reply)
    requires id < |s.ops| && JustCalled(s.ops[id]) && WellFormed(s.ops[id].cb.callback, |s.ops[id].cb.buffer|, r)
    requires if Opens(s.ops[id], r) then r.data.addr !in s.alloc && alloc == s.alloc[r.data.addr := Owner(0, s.ops[id].kind.file)]
             else alloc == s.alloc
    requires reply == ReplyOf(s.ops[id].cb, r)
    ensures RunsTo(Held(s, id), Coming(id, r), Put(s, id, Returned(s.ops[id], r, reply), IDLE).(
                     alloc := alloc, files := FileAfter(s.files, id, s.ops[id], reply)))
  {
    var mid := Put(s, id, Answer(s.ops[id], r), IDLE).(alloc := alloc);
    var end := Put(s, id, Returned(s.ops[id], r, reply), IDLE).(alloc := alloc, files := FileAfter(s.files, id, s.ops[id], reply));
    IsAnswered(s, id, r, alloc);
    IsReceived(s, id, r, alloc);
    RunsOne(mid, AReceive(id), end);
    RunsBoth(Held(s, id), [AComplete(0, id, r), AMove(0), AMove(0), AMove(0)], mid, [AReceive(id)], end);
    assert [AComplete(0, id, r), AMove(0), AMove(0), AMove(0)] + [AReceive(id)] == Coming(id, r);
  }

  // ---------------------------------------------------------------------------------------------
  // One session
  // ---------------------------------------------------------------------------------------------

  const START: State := State([FRESH], [], [], map[], map[], Running)

  predicate Session(p: nat, opener: Cb, reader: Cb, closer: Cb, data: seq<Byte>) {
    && p != 0
    && Fresh(opener) && opener.callback.Open?
    && Fresh(reader) && reader.callback.Read? && |data| <= |reader.buffer|
    && Fresh(closer) && closer.callback.Generic?
  }

  function Opened(p: nat, opener: Cb): Op {
    Returned(NewOp(OpenOp(0), 0, opener), Response(0, Fh(p)), Reply(0, p, opener.buffer))
  }

  function WasRead(p: nat, reader: Cb, data: seq<Byte>): Op
    requires |data| <= |reader.buffer|
  {
    Returned(NewOp(ReadOp(0, p), 0, reader), Response(|data|, Bytes(data)), Reply(|data|, 0, data + reader.buffer[|data|..]))
  }

  function Closed(p: nat, closer: Cb): Op {
    Returned(NewOp(CloseOp(0, p), 0, closer), Response(0, Null), Reply(0, 0, closer.buffer))
  }

  /** The session is open, and calls `ops` have returned. */
  function IsOpen(p: nat, ops: seq<Op>): State {
    State([IDLE], ops, [Live(p, {})], map[p := 0], map[p := Owner(0, 0)], Running)
  }

  function IsOver(ops: seq<Op>): State {
    State([IDLE], ops, [Released], map[], map[], Running)
  }

  function OpenSteps(p: nat, opener: Cb): seq<Action> {
    [AOpen(0, opener)] + (Going(0) + (Coming(0, Response(0, Fh(p))) + [ARegister(0)]))
  }

  function ReadSteps(reader: Cb, data: seq<Byte>): seq<Action> {
    [ARead(0, reader)] + (Going(1) + Coming(1, Response(|data|, Bytes(data))))
  }

  function CloseSteps(closer: Cb): seq<Action> {
    [AClose(0, closer)] + (Going(2) + ([AFree(0, 2)] + Coming(2, Response(0, Null))))
  }

  lemma {:induction false} OpensIt(p: nat, opener: Cb)
    requires p != 0 && Fresh(opener) && opener.callback.Open?
    ensures RunsTo(START, OpenSteps(p, opener), IsOpen(p, [Opened(p, opener)]))
  {
    var op := NewOp(OpenOp(0), 0, opener);
    var r := Response(0, Fh(p));
    var s1 := START.(ops := [op], files := [Opening(0)]);
    var got := State([IDLE], [Opened(p, opener)], [Got(p, 0)], map[], map[p := Owner(0, 0)], Running);
    assert [] + [op] == [op];
    assert [] + [Opening(0)] == [Opening(0)];
    assert CanStep(START, AOpen(0, opener)) && Step(START, AOpen(0, opener)) == s1;
    ReachesLibnfs(s1, 0);
    ReplyIs(opener, r);
    ReturnsFromLibnfs(s1, 0, r, map[p := Owner(0, 0)], Reply(0, p, opener.buffer));
    assert [op][0 := Opened(p, opener)] == [Opened(p, opener)];
    assert [Opening(0)][0 := Got(p, 0)] == [Got(p, 0)];
    assert [Got(p, 0)][0 := Live(p, {})] == [Live(p, {})];
    RunsOne(got, ARegister(0), IsOpen(p, [Opened(p, opener)]));
    RunsBoth(Held(s1, 0), Coming(0, r), got, [ARegister(0)], IsOpen(p, [Opened(p, opener)]));
    RunsBoth(s1, Going(0), Held(s1, 0), Coming(0, r) + [ARegister(0)], IsOpen(p, [Opened(p, opener)]));
    RunsOn(START, AOpen(0, opener), s1, Going(0) + (Coming(0, r) + [ARegister(0)]), IsOpen(p, [Opened(p, opener)]));
  }

  lemma {:induction false} ReadsIt(p: nat, first: Op, reader: Cb, data: seq<Byte>)
    requires Fresh(reader) && reader.callback.Read? && |data| <= |reader.buffer|
    ensures RunsTo(IsOpen(p, [first]), ReadSteps(reader, data), IsOpen(p, [first, WasRead(p, reader, data)]))
  {
    var op := NewOp(ReadOp(0, p), 0, reader);
    var r := Response(|data|, Bytes(data));
    var reply := Reply(|data|, 0, data + reader.buffer[|data|..]);
    var s := IsOpen(p, [first]);
    var s1 := s.(ops := [first, op], files := [Live(p, {1})]);
    var end := IsOpen(p, [first, WasRead(p, reader, data)]);
    assert [first] + [op] == [first, op];
    assert {} + {1} == {1};
    assert [Live(p, {})][0 := Live(p, {1})] == [Live(p, {1})];
    assert CanStep(s, ARead(0, reader)) && Step(s, ARead(0, reader)) == s1;
    ReachesLibnfs(s1, 1);
    assert data[..|data|] == data;
    ReplyIs(reader, r);
    ReturnsFromLibnfs(s1, 1, r, s.alloc, reply);
    assert {1} - {1} == {};
    assert [Live(p, {1})][0 := Live(p, {})] == [Live(p, {})];
    assert [first, op][1 := WasRead(p, reader, data)] == [first, WasRead(p, reader, data)];
    RunsBoth(s1, Going(1), Held(s1, 1), Coming(1, r), end);
    RunsOn(s, ARead(0, reader), s1, Going(1) + Coming(1, r), end);
  }

  /** While the close `op` is pending: its entry is out of the map, the handle freed or not. */
  function ClosePending(p: nat, ops: seq<Op>, alloc: map<nat, Owner>): State {
    State([IDLE], ops, [Closing(p, 2)], map[], alloc, Running)
  }

  lemma {:induction false} CloseBegins(p: nat, first: Op, second: Op, closer: Cb)
    requires Fresh(closer) && closer.callback.Generic?
    ensures var s, op := IsOpen(p, [first, second]), NewOp(CloseOp(0, p), 0, closer);
      CanStep(s, AClose(0, closer)) && Step(s, AClose(0, closer)) == ClosePending(p, [first, second, op], s.alloc)
  {
    assert [first, second] + [NewOp(CloseOp(0, p), 0, closer)] == [first, second, NewOp(CloseOp(0, p), 0, closer)];
    assert map[p := 0] - {p} == map[];
    assert [Live(p, {})][0 := Closing(p, 2)] == [Closing(p, 2)];
  }

  lemma {:induction false} HandleIsFreed(p: nat, ops: seq<Op>)
    requires |ops| == 3 && ops[2].kind == CloseOp(0, p)
    ensures var s := Held(ClosePending(p, ops, map[p := Owner(0, 0)]), 2);
      CanStep(s, AFree(0, 2)) && Step(s, AFree(0, 2)) == Held(ClosePending(p, ops, map[]), 2)
  {
    assert map[p := Owner(0, 0)] - {p} == map[];
  }

  lemma {:induction false} ClosesIt(p: nat, first: Op, second: Op, closer: Cb)
    requires Fresh(closer) && closer.callback.Generic?
    ensures RunsTo(IsOpen(p, [first, second]), CloseSteps(closer), IsOver([first, second, Closed(p, closer)]))
  {
    var op := NewOp(CloseOp(0, p), 0, closer);
    var r := Response(0, Null);
    var s := IsOpen(p, [first, second]);
    var s1 := ClosePending(p, [first, second, op], s.alloc);
    var s2 := ClosePending(p, [first, second, op], map[]);
    var end := IsOver([first, second, Closed(p, closer)]);
    CloseBegins(p, first, second, closer);
    ReachesLibnfs(s1, 2);
    HandleIsFreed(p, [first, second, op]);
    ReplyIs(closer, r);
    ReturnsFromLibnfs(s2, 2, r, map[], Reply(0, 0, closer.buffer));
    assert [Closing(p, 2)][0 := Released] == [Released];
    assert [first, second, op][2 := Closed(p, closer)] == [first, second, Closed(p, closer)];
    RunsOn(Held(s1, 2), AFree(0, 2), Held(s2, 2), Coming(2, r), end);
    RunsBoth(s1, Going(2), Held(s1, 2), [AFree(0, 2)] + Coming(2, r), end);
    RunsOn(s, AClose(0, closer), s1, Going(2) + ([AFree(0, 2)] + Coming(2, r)), end);
  }

  const SHUTDOWN: seq<Action> := [AShutdown, AShutdown, ATake(0)] + [AShutdown, AShutdown, AShutdown, AShutdown]

  /** The pool of `IsOver`, with `shutdown` and its slot elsewhere. */
  function Ending(ops: seq<Op>, sl: Slot, shut: Shut): State {
    State([sl], ops, [Released], map[], map[], shut)
  }

  const GONE: Slot := Slot(false, 1, Exited, [], 0, {}, false)

  lemma {:induction false} QuitIsTaken(ops: seq<Op>)
    ensures RunsTo(IsOver(ops), [AShutdown, AShutdown, ATake(0)], Ending(ops, IDLE.(pc := Exited), Taking(0)))
  {
    var quit := IDLE.(queue := [Quit]);
    var exited := IDLE.(pc := Exited);
    var end := Ending(ops, exited, Taking(0));
    assert [] + [Quit] == [Quit];
    assert [Quit][1..] == [];
    assert [IDLE][0 := quit] == [quit];
    assert [quit][0 := exited] == [exited];
    RunsOne(Ending(ops, quit, Taking(0)), ATake(0), end);
    RunsOn(Ending(ops, IDLE, Sending(0)), AShutdown, Ending(ops, quit, Taking(0)), [ATake(0)], end);
    RunsOn(IsOver(ops), AShutdown, Ending(ops, IDLE, Sending(0)), [AShutdown] + [ATake(0)], end);
    assert [AShutdown] + ([AShutdown] + [ATake(0)]) == [AShutdown, AShutdown, ATake(0)];
  }

  lemma {:induction false} IsDestroyed(ops: seq<Op>)
    ensures RunsTo(Ending(ops, IDLE.(pc := Exited), Taking(0)), [AShutdown, AShutdown, AShutdown, AShutdown],
                   Ending(ops, GONE, Finished))
  {
    var exited := IDLE.(pc := Exited);
    var end := Ending(ops, GONE, Finished);
    assert [exited][0 := GONE] == [GONE];
    RunsOne(Ending(ops, GONE, Clearing), AShutdown, end);
    RunsOn(Ending(ops, exited, Destroying(0)), AShutdown, Ending(ops, GONE, Clearing), [AShutdown], end);
    RunsOn(Ending(ops, exited, Joining(0)), AShutdown, Ending(ops, exited, Destroying(0)), [AShutdown] + [AShutdown], end);
    RunsOn(Ending(ops, exited, Taking(0)), AShutdown, Ending(ops, exited, Joining(0)), [AShutdown] + ([AShutdown] + [AShutdown]), end);
    assert [AShutdown] + ([AShutdown] + ([AShutdown] + [AShutdown])) == [AShutdown, AShutdown, AShutdown, AShutdown];
  }

  lemma {:induction false} ShutsDown(ops: seq<Op>)
    ensures RunsTo(IsOver(ops), SHUTDOWN, Ending(ops, GONE, Finished))
  {
    QuitIsTaken(ops);
    IsDestroyed(ops);
    RunsBoth(IsOver(ops), [AShutdown, AShutdown, ATake(0)], Ending(ops, IDLE.(pc := Exited), Taking(0)),
             [AShutdown, AShutdown, AShutdown, AShutdown], Ending(ops, GONE, Finished));
  }

  /** From the start a file can be opened with any handle, read with any data its buffer holds, closed and freed, and
      the pool be shut down: at `m1` the session is live and registered on its slot, at `m2` its reader has the
      data, at `m3` the session is over, its handle freed and the map empty, and at the end the actor has returned
      and the context is destroyed. */
  lemma {:induction false} AFileIsServed(p: nat, opener: Cb, reader: Cb, closer: Cb, data: seq<Byte>)
    returns (trace: seq<State>, actions: seq<Action>, m1: nat, m2: nat, m3: nat)
    requires Session(p, opener, reader, closer, data)
    ensures IsRun(trace, actions) && m1 < m2 < m3 < |actions|
    ensures trace[m1].files == [Live(p, {})] && trace[m1].openFiles == map[p := 0]
    ensures trace[m1].alloc == map[p := Owner(0, 0)]
    ensures |trace[m2].ops| == 2 && trace[m2].ops[1].kind == ReadOp(0, p) && trace[m2].ops[1].cb == reader
    ensures trace[m2].ops[1].result == Some(Reply(|data|, 0, data + reader.buffer[|data|..]))
    ensures trace[m2].files == [Live(p, {})] && trace[m2].openFiles == map[p := 0]
    ensures trace[m3].files == [Released] && trace[m3].openFiles == map[] && trace[m3].alloc == map[]
    ensures |trace[m3].ops| == 3 && trace[m3].ops[2].result == Some(Reply(0, 0, closer.buffer))
    ensures var end := trace[|actions|]; end.shut.Finished? && |end.slots| == 1 && end.slots[0].pc.Exited? && !end.slots[0].alive
  {
    var first, second, third := Opened(p, opener), WasRead(p, reader, data), Closed(p, closer);
    trace, actions := [START], [];
    OpensIt(p, opener);
    trace, actions := Extend(trace, actions, OpenSteps(p, opener), IsOpen(p, [first]));
    m1 := |actions|;
    ReadsIt(p, first, reader, data);
    trace, actions := Extend(trace, actions, ReadSteps(reader, data), IsOpen(p, [first, second]));
    m2 := |actions|;
    ClosesIt(p, first, second, closer);
    trace, actions := Extend(trace, actions, CloseSteps(closer), IsOver([first, second, third]));
    m3 := |actions|;
    ShutsDown([first, second, third]);
    trace, actions := Extend(trace, actions, SHUTDOWN, Ending([first, second, third], GONE, Finished));
  }
}
