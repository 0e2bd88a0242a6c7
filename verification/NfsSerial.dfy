/** One operation at a time: the calls that reached the server, put in one order, are served by it one after the other,
    each with its own answer, and whatever the pipelining, that order respects real time. */
module NfsSerial {
  import opened Wrappers
  import opened Libnfs
  import opened NfsPool
  import opened NfsPoolCalls
  import opened NfsPoolLifecycle
  import opened NfsPoolHandles

  // ---------------------------------------------------------------------------------------------
  // The serial server
  // ---------------------------------------------------------------------------------------------

  /** What serving a call does to the open handles. */
  datatype Effect = Nothing | Opened(fh: nat) | Closed

  /** One call served from beginning to end. */
  datatype Event = Event(id: nat, kind: Kind, effect: Effect)

  /** The state of the server: open handles, each with the session that opened it. */
  type Server = map<nat, nat>

  /** An open may yield an address that is not open; a read and a close are of an open handle of their own session. */
  predicate Allowed(server: Server, e: Event) {
    match e.kind
    case PathOp => e.effect.Nothing?
    case OpenOp(_) => e.effect.Nothing? || (e.effect.Opened? && e.effect.fh != 0 && e.effect.fh !in server)
    case ReadOp(f, fh) => e.effect.Nothing? && fh in server && server[fh] == f
    case CloseOp(f, fh) => !e.effect.Opened? && fh in server && server[fh] == f
  }

  function Serve(server: Server, e: Event): Server
    requires Allowed(server, e)
  {
    match e.effect
    case Nothing => server
    case Opened(fh) => server[fh := e.kind.file]
    case Closed => server - {e.kind.fh}
  }

  /** The server after the calls of `h`, served one after the other from the start; none if one is not allowed. */
  function Replay(h: seq<Event>): Option<Server> {
    if h == [] then Some(map[])
    else
      match Replay(h[..|h| - 1])
      case None => None
      case Some(server) => if Allowed(server, h[|h| - 1]) then Some(Serve(server, h[|h| - 1])) else None
  }

  // ---------------------------------------------------------------------------------------------
  // The order in which a run has its calls served
  // ---------------------------------------------------------------------------------------------

  predicate Has(h: seq<Event>, id: nat) {
    exists k :: 0 <= k < |h| && h[k].id == id
  }

  /** The moment a call takes effect: when it is refused or answered, and for a close that frees its handle, when it
      does. */
  function Takes(s: State, a: Action, h: seq<Event>): seq<Event>
    requires CanStep(s, a)
  {
    match a
    case AReject(i, _) => [Event(s.slots[i].pc.id, s.ops[s.slots[i].pc.id].kind, Nothing)]
    case AFree(_, id) => [Event(id, s.ops[id].kind, Closed)]
    case AComplete(_, id, r) =>
      if Has(h, id) then [] else [Event(id, s.ops[id].kind, if Opens(s.ops[id], r) then Opened(r.data.addr) else Nothing)]
    case _ => []
  }

  ghost function History(trace: seq<State>, actions: seq<Action>, n: nat): seq<Event>
    requires IsRun(trace, actions) && n < |trace|
  {
    if n == 0 then []
    else
      var h := History(trace, actions, n - 1);
      h + Takes(trace[n - 1], actions[n - 1], h)
  }

  /** What the allocator has handed out, as the server sees it. */
  function Handles(s: State): Server {
    map fh | fh in s.alloc :: s.alloc[fh].file
  }

  /** The event is the call's own: same kind, and an open has opened what its answer says. */
  predicate EventOk(s: State, e: Event) {
    e.id < |s.ops| && s.ops[e.id].kind == e.kind &&
    var op := s.ops[e.id];
    if op.at.Gone? then
      && !op.verdict.NotIssued?
      && (e.effect.Opened? <==> op.verdict.Answered? && Opens(op, op.verdict.response))
      && (e.effect.Opened? ==> e.effect.fh == op.verdict.response.data.addr)
    else op.at.AtLibnfs? && e.kind.CloseOp? && e.effect.Closed?
  }

  /** A close at libnfs has freed its handle if and only if it is in the history. */
  predicate CloseOk(s: State, h: seq<Event>, id: nat)
    requires id < |s.ops|
  {
    var op := s.ops[id];
    op.at.AtLibnfs? && op.kind.CloseOp? ==> (Has(h, id) <==> !OwnedBy(s, op.kind.fh, op.slot, op.kind.file))
  }

  ghost predicate Recorded(s: State, h: seq<Event>) {
    && (forall k :: 0 <= k < |h| ==> EventOk(s, h[k]))
    && (forall j, k :: 0 <= j < k < |h| ==> h[j].id != h[k].id)
    && (forall id :: 0 <= id < |s.ops| && !s.ops[id].verdict.NotIssued? ==> Has(h, id))
    && (forall id :: 0 <= id < |s.ops| ==> CloseOk(s, h, id))
  }

  /** The history of a run, served call by call, leaves the server with the handles the pool's allocator has out. */
  ghost predicate Matches(s: State, h: seq<Event>) {
    Recorded(s, h) && Replay(h) == Some(Handles(s))
  }

  lemma {:induction false} ReplayMore(h: seq<Event>, e: Event, server: Server)
    requires Replay(h) == Some(server) && Allowed(server, e)
    ensures Replay(h + [e]) == Some(Serve(server, e))
  {
    assert (h + [e])[..|h|] == h;
  }

  lemma {:induction false} HasMore(h: seq<Event>, e: Event)
    ensures forall id :: Has(h + [e], id) <==> Has(h, id) || e.id == id
  {
    forall id ensures Has(h + [e], id) <==> Has(h, id) || e.id == id {
      if Has(h, id) {
        var k :| 0 <= k < |h| && h[k].id == id;
        assert (h + [e])[k].id == id;
      }
      if e.id == id { assert (h + [e])[|h|].id == id; }
    }
  }

  // ---------------------------------------------------------------------------------------------
  // Every step keeps the match
  // ---------------------------------------------------------------------------------------------

  lemma {:induction false} HistoryIsPast(s: State, h: seq<Event>, id: nat)
    requires Recorded(s, h) && id < |s.ops|
    ensures Has(h, id) ==> s.ops[id].at.Gone? || (s.ops[id].at.AtLibnfs? && s.ops[id].kind.CloseOp?)
  {
    forall k | 0 <= k < |h| && h[k].id == id ensures s.ops[id].at.Gone? || (s.ops[id].at.AtLibnfs? && s.ops[id].kind.CloseOp?) {
      assert EventOk(s, h[k]);
    }
  }

  /** A step that leaves alone the calls the history is about, and hands out no handle. */
  lemma {:induction false} QuietKeeps(s: State, s': State, h: seq<Event>)
    requires Matches(s, h) && s'.alloc == s.alloc && |s'.ops| >= |s.ops|
    requires forall id :: 0 <= id < |s'.ops| ==>
      var op' := s'.ops[id];
      if id < |s.ops| && (s.ops[id].at.Gone? || s.ops[id].at.AtLibnfs?) then
        var op := s.ops[id];
        op'.kind == op.kind && op'.slot == op.slot && op'.at == op.at && op'.verdict == op.verdict
      else
        op'.verdict.NotIssued? && (id < |s.ops| ==> op'.kind == s.ops[id].kind) &&
        (op'.at.AtLibnfs? && op'.kind.CloseOp? ==> OwnedBy(s', op'.kind.fh, op'.slot, op'.kind.file))
    ensures Matches(s', h)
  {
    forall k | 0 <= k < |h| ensures EventOk(s', h[k]) { assert EventOk(s, h[k]); }
    forall id | 0 <= id < |s'.ops| && !s'.ops[id].verdict.NotIssued? ensures Has(h, id) {}
    forall id | 0 <= id < |s'.ops| ensures CloseOk(s', h, id) {
      if id < |s.ops| { assert CloseOk(s, h, id); }
      if Has(h, id) {
        var k :| 0 <= k < |h| && h[k].id == id;
        assert EventOk(s, h[k]);
      }
    }
  }

  lemma {:induction false} WorkerKeeps(s: State, a: Action, h: seq<Event>)
    requires Inv(s) && CanStep(s, a) && Matches(s, h)
    requires a.AEnsureStarted? || a.ASend? || a.AReceive? || a.AReceiveNone?
    ensures Matches(Step(s, a), h)
  {
    assert OpOk(s, a.id);
    QuietKeeps(s, Step(s, a), h);
  }

  lemma {:induction false} CallKeeps(s: State, a: Action, h: seq<Event>)
    requires Inv(s) && CanStep(s, a) && Matches(s, h)
    requires a.APath? || a.AOpen? || a.ARead? || a.AClose? || a.ARegister? || a.AShutdown? || a.AMove?
    ensures Matches(Step(s, a), h)
  {
    forall id | 0 <= id < |s.ops| ensures s.ops[id].at.Gone? || s.ops[id].at.AtLibnfs? || s.ops[id].verdict.NotIssued? {
      assert OpOk(s, id);
    }
    QuietKeeps(s, Step(s, a), h);
  }

  lemma {:induction false} IssueKeeps(s: State, a: Action, h: seq<Event>)
    requires Inv(s) && HandlesOk(s) && CanStep(s, a) && Matches(s, h) && (a.ATake? || a.AAccept?)
    ensures Matches(Step(s, a), h)
  {
    forall id | 0 <= id < |s.ops| ensures s.ops[id].at.Gone? || s.ops[id].at.AtLibnfs? || s.ops[id].verdict.NotIssued? {
      assert OpOk(s, id);
    }
    assert SlotOk(s, a.i);
    if a.ATake? {
      assert TaskOk(s, a.i, s.slots[a.i].queue[0]);
    } else {
      IssuingOwns(s, a.i);
    }
    QuietKeeps(s, Step(s, a), h);
  }

  /** One call gets its verdict, or frees its handle: the others are as before. */
  lemma {:induction false} RecordedMore(s: State, s': State, h: seq<Event>, e: Event)
    requires Recorded(s, h) && !Has(h, e.id) && e.id < |s.ops| && |s'.ops| == |s.ops|
    requires forall id :: 0 <= id < |s.ops| && id != e.id ==> s'.ops[id] == s.ops[id]
    requires EventOk(s', e)
    requires forall id :: 0 <= id < |s.ops| && s.ops[id].at.AtLibnfs? && s.ops[id].kind.CloseOp? && id != e.id ==>
      var op := s.ops[id];
      OwnedBy(s', op.kind.fh, op.slot, op.kind.file) == OwnedBy(s, op.kind.fh, op.slot, op.kind.file)
    requires CloseOk(s', h + [e], e.id)
    ensures Recorded(s', h + [e])
  {
    HasMore(h, e);
    var h' := h + [e];
    forall k | 0 <= k < |h'| ensures EventOk(s', h'[k]) {
      if k < |h| { assert EventOk(s, h[k]) && h[k].id != e.id; }
    }
    forall j, k | 0 <= j < k < |h'| ensures h'[j].id != h'[k].id {
      if k == |h| { assert h[j].id != e.id; }
    }
    forall id | 0 <= id < |s'.ops| ensures CloseOk(s', h', id) {
      assert CloseOk(s, h, id);
    }
  }

  lemma {:induction false} RejectKeeps(s: State, a: Action, h: seq<Event>)
    requires Inv(s) && HandlesOk(s) && CanStep(s, a) && Matches(s, h) && a.AReject?
    ensures Matches(Step(s, a), h + Takes(s, a, h))
  {
    var id := s.slots[a.i].pc.id;
    var e := Event(id, s.ops[id].kind, Nothing);
    assert SlotOk(s, a.i) && OpOk(s, id);
    IssuingOwns(s, a.i);
    HistoryIsPast(s, h, id);
    RecordedMore(s, Step(s, a), h, e);
    ReplayMore(h, e, Handles(s));
  }

  /** The close of an open session is its only one, and no open of it is under way. */
  lemma {:induction false} OneCloseASession(s: State, id: nat)
    requires Inv(s) && HandlesOk(s) && id < |s.ops| && s.ops[id].at.AtLibnfs? && s.ops[id].kind.CloseOp?
    ensures forall k :: 0 <= k < |s.ops| && k != id && s.ops[k].at.AtLibnfs? ==>
      (s.ops[k].kind.CloseOp? ==> s.ops[k].kind.file != s.ops[id].kind.file) &&
      (s.ops[k].kind.OpenOp? ==> s.ops[k].kind.file != s.ops[id].kind.file)
  {
    assert OpOk(s, id) && SessionOk(s, id);
    forall k | 0 <= k < |s.ops| && k != id && s.ops[k].at.AtLibnfs?
      ensures (s.ops[k].kind.CloseOp? ==> s.ops[k].kind.file != s.ops[id].kind.file)
      ensures (s.ops[k].kind.OpenOp? ==> s.ops[k].kind.file != s.ops[id].kind.file)
    {
      assert OpOk(s, k) && SessionOk(s, k);
    }
  }

  /** Freeing a handle takes it from no other close... */
  lemma {:induction false} FreeSparesOthers(s: State, i: nat, id: nat, k: nat)
    requires Inv(s) && HandlesOk(s) && CanFree(s, i, id)
    requires k < |s.ops| && s.ops[k].at.AtLibnfs? && s.ops[k].kind.CloseOp? && k != id
    ensures var op := s.ops[k];
      OwnedBy(Free(s, id), op.kind.fh, op.slot, op.kind.file) == OwnedBy(s, op.kind.fh, op.slot, op.kind.file)
  {
    assert SlotOk(s, i);
    OneCloseASession(s, id);
  }

  /** ... and handing one out gives it to no session that is being closed. */
  lemma {:induction false} CompleteSparesOthers(s: State, i: nat, id: nat, r: Response, k: nat)
    requires Inv(s) && HandlesOk(s) && CanComplete(s, i, id, r)
    requires k < |s.ops| && s.ops[k].at.AtLibnfs? && s.ops[k].kind.CloseOp? && k != id
    ensures var op := s.ops[k];
      OwnedBy(Complete(s, i, id, r), op.kind.fh, op.slot, op.kind.file) == OwnedBy(s, op.kind.fh, op.slot, op.kind.file)
  {
    assert SlotOk(s, i);
    OneCloseASession(s, k);
  }

  lemma {:induction false} FreeKeeps(s: State, i: nat, id: nat, h: seq<Event>)
    requires Inv(s) && HandlesOk(s) && CanFree(s, i, id) && Matches(s, h)
    ensures Matches(Free(s, id), h + [Event(id, s.ops[id].kind, Closed)])
  {
    var e, s' := Event(id, s.ops[id].kind, Closed), Free(s, id);
    assert SlotOk(s, i) && CloseOk(s, h, id);
    HasMore(h, e);
    forall k | 0 <= k < |s.ops| && s.ops[k].at.AtLibnfs? && s.ops[k].kind.CloseOp? && k != id
      ensures OwnedBy(s', s.ops[k].kind.fh, s.ops[k].slot, s.ops[k].kind.file) ==
              OwnedBy(s, s.ops[k].kind.fh, s.ops[k].slot, s.ops[k].kind.file)
    {
      FreeSparesOthers(s, i, id, k);
    }
    RecordedMore(s, s', h, e);
    ReplayMore(h, e, Handles(s));
    assert Handles(s') == Handles(s) - {s.ops[id].kind.fh};
  }

  /** The event of an answer is one the server allows. */
  lemma {:induction false} AnswerIsAllowed(s: State, i: nat, id: nat, r: Response, h: seq<Event>)
    requires Inv(s) && HandlesOk(s) && CanComplete(s, i, id, r) && Matches(s, h) && !Has(h, id)
    ensures var e := Event(id, s.ops[id].kind, if Opens(s.ops[id], r) then Opened(r.data.addr) else Nothing);
      Allowed(Handles(s), e) && Serve(Handles(s), e) == Handles(Complete(s, i, id, r))
  {
    assert SlotOk(s, i) && CloseOk(s, h, id);
    HeldReadOwns(s, i, id);
    if Opens(s.ops[id], r) {
      assert Handles(Complete(s, i, id, r)) == Handles(s)[r.data.addr := s.ops[id].kind.file];
    }
  }

  lemma {:induction false} AnswerKeeps(s: State, i: nat, id: nat, r: Response, h: seq<Event>)
    requires Inv(s) && HandlesOk(s) && CanComplete(s, i, id, r) && Matches(s, h) && !Has(h, id)
    ensures Matches(Complete(s, i, id, r), h + Takes(s, AComplete(i, id, r), h))
  {
    var s' := Complete(s, i, id, r);
    var e := Event(id, s.ops[id].kind, if Opens(s.ops[id], r) then Opened(r.data.addr) else Nothing);
    forall k | 0 <= k < |s.ops| && s.ops[k].at.AtLibnfs? && s.ops[k].kind.CloseOp? && k != id
      ensures OwnedBy(s', s.ops[k].kind.fh, s.ops[k].slot, s.ops[k].kind.file) ==
              OwnedBy(s, s.ops[k].kind.fh, s.ops[k].slot, s.ops[k].kind.file)
    {
      CompleteSparesOthers(s, i, id, r, k);
    }
    RecordedMore(s, s', h, e);
    AnswerIsAllowed(s, i, id, r, h);
    ReplayMore(h, e, Handles(s));
  }

  /** The answer of a close that has freed its handle already. */
  lemma {:induction false} LateAnswerKeeps(s: State, i: nat, id: nat, r: Response, h: seq<Event>)
    requires Inv(s) && HandlesOk(s) && CanComplete(s, i, id, r) && Matches(s, h) && Has(h, id)
    ensures Matches(Complete(s, i, id, r), h)
  {
    var s' := Complete(s, i, id, r);
    assert SlotOk(s, i) && OpOk(s, id);
    HistoryIsPast(s, h, id);
    forall k | 0 <= k < |h| ensures EventOk(s', h[k]) { assert EventOk(s, h[k]); }
    forall k | 0 <= k < |s'.ops| ensures CloseOk(s', h, k) {
      assert CloseOk(s, h, k);
    }
  }

  /** A step at which no call takes effect. */
  lemma {:induction false} SilentKeeps(s: State, a: Action, h: seq<Event>)
    requires Inv(s) && HandlesOk(s) && CanStep(s, a) && Matches(s, h) && !a.AReject? && !a.AFree? && !a.AComplete?
    ensures Matches(Step(s, a), h)
  {
    if a.ATake? || a.AAccept? {
      IssueKeeps(s, a, h);
    } else if a.AEnsureStarted? || a.ASend? || a.AReceive? || a.AReceiveNone? {
      WorkerKeeps(s, a, h);
    } else {
      CallKeeps(s, a, h);
    }
  }

  lemma {:induction false} StepKeeps(s: State, a: Action, h: seq<Event>)
    requires Inv(s) && HandlesOk(s) && CanStep(s, a) && Matches(s, h)
    ensures Matches(Step(s, a), h + Takes(s, a, h))
  {
    assert h + [] == h;
    match a
    case AReject(_, _) => RejectKeeps(s, a, h);
    case AFree(i, id) => FreeKeeps(s, i, id, h);
    case AComplete(i, id, r) =>
      if Has(h, id) { LateAnswerKeeps(s, i, id, r, h); } else { AnswerKeeps(s, i, id, r, h); }
    case _ => SilentKeeps(s, a, h);
  }

  lemma {:induction false} RunKeeps(trace: seq<State>, actions: seq<Action>, n: nat)
    requires IsRun(trace, actions) && n < |trace|
    ensures Matches(trace[n], History(trace, actions, n))
  {
    if n == 0 {
      assert Handles(trace[0]) == map[];
    } else {
      RunKeeps(trace, actions, n - 1);
      RunKeepsHandles(trace, actions, n - 1);
      StepKeeps(trace[n - 1], actions[n - 1], History(trace, actions, n - 1));
    }
  }

  // ---------------------------------------------------------------------------------------------
  // What this says about runs
  // ---------------------------------------------------------------------------------------------

  /** The history only grows: each moment of the run is the image of a moment of the serial one. */
  lemma {:induction false} HistoryGrows(trace: seq<State>, actions: seq<Action>, m: nat, n: nat)
    requires IsRun(trace, actions) && m <= n < |trace|
    ensures History(trace, actions, m) <= History(trace, actions, n)
    decreases n
  {
    if m == n {
    } else {
      HistoryGrows(trace, actions, m, n - 1);
    }
  }

  /** Every run of the pipelined pool is a run of the serial server: the calls that reached it, each once and each with
      its own effect, are served one after the other, each allowed where it stands, and the handles that are then open
      are those the allocator has out.  A call that returned either is one of them and returned the reply of its own
      verdict, or never reached the server and returned EIO. */
  lemma {:induction false} ServedOneAtATime(trace: seq<State>, actions: seq<Action>, n: nat)
    requires IsRun(trace, actions) && n < |trace|
    ensures var s, h := trace[n], History(trace, actions, n);
      && Replay(h) == Some(Handles(s))
      && (forall j, k :: 0 <= j < k < |h| ==> h[j].id != h[k].id)
      && (forall k :: 0 <= k < |h| ==> EventOk(s, h[k]))
      && (forall id :: 0 <= id < |s.ops| && s.ops[id].result.Some? ==>
            IsOutcome(s.ops[id], s.ops[id].result.value) &&
            if Has(h, id) then !s.ops[id].verdict.NotIssued? else s.ops[id].result.value == Err(s.ops[id].cb, -EIO))
  {
    var s, h := trace[n], History(trace, actions, n);
    RunKeeps(trace, actions, n);
    RunKeepsInv(trace, actions, n);
    forall id | 0 <= id < |s.ops| && s.ops[id].result.Some?
      ensures IsOutcome(s.ops[id], s.ops[id].result.value)
      ensures if Has(h, id) then !s.ops[id].verdict.NotIssued? else s.ops[id].result.value == Err(s.ops[id].cb, -EIO)
    {
      assert OpOk(s, id);
      HistoryIsPast(s, h, id);
      forall k | 0 <= k < |h| && h[k].id == id ensures !s.ops[id].verdict.NotIssued? { assert EventOk(s, h[k]); }
    }
  }

  lemma {:induction false} VerdictStays(s: State, a: Action, id: nat)
    requires Inv(s) && CanStep(s, a) && id < |s.ops| && s.ops[id].at.Gone?
    ensures id < |Step(s, a).ops| && Step(s, a).ops[id].at.Gone? && Step(s, a).ops[id].verdict == s.ops[id].verdict
  {
    if a.ATake? || a.AAccept? || a.AReject? || a.AComplete? {
      assert SlotOk(s, a.i);
      if a.ATake? { assert TaskOk(s, a.i, s.slots[a.i].queue[0]); }
    }
  }

  lemma {:induction false} VerdictsAreFinal(trace: seq<State>, actions: seq<Action>, m: nat, n: nat, id: nat)
    requires IsRun(trace, actions) && m <= n < |trace| && id < |trace[m].ops| && trace[m].ops[id].at.Gone?
    ensures id < |trace[n].ops| && trace[n].ops[id].at.Gone? && trace[n].ops[id].verdict == trace[m].ops[id].verdict
    decreases n
  {
    if m == n {
    } else {
      VerdictsAreFinal(trace, actions, m, n - 1, id);
      RunKeepsInv(trace, actions, n - 1);
      VerdictStays(trace[n - 1], actions[n - 1], id);
    }
  }

  /** A call that has returned and is ever served has been served already. */
  lemma {:induction false} ServedByReturn(trace: seq<State>, actions: seq<Action>, m: nat, n: nat, id: nat)
    requires IsRun(trace, actions) && m <= n < |trace| && id < |trace[m].ops| && trace[m].ops[id].result.Some?
    ensures Has(History(trace, actions, n), id) ==> Has(History(trace, actions, m), id)
  {
    RunKeepsInv(trace, actions, m);
    assert OpOk(trace[m], id);
    RunKeeps(trace, actions, m);
    RunKeeps(trace, actions, n);
    VerdictsAreFinal(trace, actions, m, n, id);
    var h := History(trace, actions, n);
    forall k | 0 <= k < |h| && h[k].id == id ensures !trace[m].ops[id].verdict.NotIssued? { assert EventOk(trace[n], h[k]); }
  }

  /** Real time is kept: a call that had returned before another one began is served before it. */
  lemma {:induction false} RealTimeOrder(trace: seq<State>, actions: seq<Action>, m: nat, n: nat, j: nat, k: nat)
    requires IsRun(trace, actions) && m <= n < |trace|
    requires j < |History(trace, actions, n)| && k < |History(trace, actions, n)|
    requires var h := History(trace, actions, n);
      h[j].id < |trace[m].ops| && trace[m].ops[h[j].id].result.Some? && h[k].id >= |trace[m].ops|
    ensures j < k
  {
    var h, past := History(trace, actions, n), History(trace, actions, m);
    HistoryGrows(trace, actions, m, n);
    RunKeeps(trace, actions, m);
    RunKeeps(trace, actions, n);
    ServedByReturn(trace, actions, m, n, h[j].id);
    assert Has(h, h[j].id);
    var p :| 0 <= p < |past| && past[p].id == h[j].id;
    assert h[p].id == h[j].id && p == j;
    forall q | 0 <= q < |past| ensures h[q].id < |trace[m].ops| {
      assert EventOk(trace[m], past[q]) && h[q] == past[q];
    }
  }
}
