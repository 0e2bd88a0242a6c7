/** Termination of the drain loops.  Every step with which a call gets on consumes a bounded budget; before shutdown
    an unanswered call always has such a step on its own slot within two control moves; control moves alone go on
    without end only while libnfs holds a request; and a budget used up means that every call has returned. */
module NfsPoolProgress {
  import opened Libnfs
  import opened NfsPool
  import opened NfsPoolCalls
  import opened NfsPoolLifecycle

  /** How many steps a call still has before it: from building the task to the return of `run_op`. */
  function Rank(op: Op): nat {
    if op.result.Some? then 0
    else
      match op.at
      case Building => 6
      case Started => 5
      case Queued => 4
      case Issuing => 3
      case AtLibnfs => 2
      case Gone => 1
  }

  /** The budget of all unissued and outstanding requests. */
  function Budget(ops: seq<Op>): nat {
    if ops == [] then 0 else Rank(ops[0]) + Budget(ops[1..])
  }

  lemma {:induction false} BudgetUpdate(ops: seq<Op>, id: nat, op: Op)
    requires id < |ops|
    ensures Budget(ops[id := op]) == Budget(ops) - Rank(ops[id]) + Rank(op)
  {
    if id == 0 {
      assert ops[0 := op][1..] == ops[1..];
    } else {
      BudgetUpdate(ops[1..], id - 1, op);
      assert ops[id := op][1..] == ops[1..][id - 1 := op];
    }
  }

  /** New calls are the workload; control moves and bookkeeping outside `run_op` answer nothing. */
  predicate NewCall(a: Action) {
    a.APath? || a.AOpen? || a.ARead? || a.AClose?
  }

  predicate Advances(s: State, a: Action)
    requires CanStep(s, a)
  {
    a.AEnsureStarted? || a.ASend? || a.AReceive? || a.AReceiveNone? || a.AAccept? || a.AReject? || a.AComplete? ||
    (a.ATake? && s.slots[a.i].queue[0].Run?)
  }

  /** The call an advancing step is about. */
  function Subject(s: State, a: Action): nat
    requires CanStep(s, a) && Advances(s, a)
  {
    match a
    case ATake(i) => s.slots[i].queue[0].id
    case AAccept(i) => s.slots[i].pc.id
    case AReject(i, _) => s.slots[i].pc.id
    case _ => a.id
  }

  lemma {:induction false} WorkerLosesRank(s: State, a: Action)
    requires Inv(s) && CanStep(s, a) && (a.AEnsureStarted? || a.ASend? || a.AReceive? || a.AReceiveNone?)
    ensures Step(s, a).ops == s.ops[a.id := Step(s, a).ops[a.id]]
    ensures Rank(Step(s, a).ops[a.id]) < Rank(s.ops[a.id])
  {
    assert OpOk(s, a.id);
  }

  lemma {:induction false} ActorLosesRank(s: State, a: Action)
    requires Inv(s) && CanStep(s, a) && Advances(s, a) && (a.ATake? || a.AAccept? || a.AReject? || a.AComplete?)
    ensures Subject(s, a) < |s.ops| && Step(s, a).ops == s.ops[Subject(s, a) := Step(s, a).ops[Subject(s, a)]]
    ensures Rank(Step(s, a).ops[Subject(s, a)]) < Rank(s.ops[Subject(s, a)])
  {
    assert SlotOk(s, a.i);
    if a.ATake? { assert s.slots[a.i].queue[0] in s.slots[a.i].queue && TaskOk(s, a.i, s.slots[a.i].queue[0]); }
    assert OpOk(s, Subject(s, a));
  }

  /** An advancing step uses up budget of exactly one call; no other step but a new call changes any. */
  lemma {:induction false} AdvancingConsumesBudget(s: State, a: Action)
    requires Inv(s) && CanStep(s, a) && !NewCall(a)
    ensures Budget(Step(s, a).ops) <= Budget(s.ops) - (if Advances(s, a) then 1 else 0)
  {
    if Advances(s, a) {
      var id := Subject(s, a);
      if a.ATake? || a.AAccept? || a.AReject? || a.AComplete? { ActorLosesRank(s, a); } else { WorkerLosesRank(s, a); }
      BudgetUpdate(s.ops, id, Step(s, a).ops[id]);
    } else {
      assert Step(s, a).ops == s.ops;
    }
  }

  /** Number of advancing steps among the first `n` steps from `m` on. */
  ghost function Advanced(trace: seq<State>, actions: seq<Action>, m: nat, n: nat): nat
    requires IsRun(trace, actions) && m <= n < |trace|
    decreases n
  {
    if m == n then 0
    else Advanced(trace, actions, m, n - 1) + if Advances(trace[n - 1], actions[n - 1]) then 1 else 0
  }

  /** Without new calls a run holds no more advancing steps than the budget it starts with. */
  lemma {:induction false} WorkIsBounded(trace: seq<State>, actions: seq<Action>, m: nat, n: nat)
    requires IsRun(trace, actions) && m <= n < |trace|
    requires forall k :: m <= k < n ==> !NewCall(actions[k])
    ensures Advanced(trace, actions, m, n) + Budget(trace[n].ops) <= Budget(trace[m].ops)
    decreases n
  {
    if m == n {
    } else {
      var k: nat := n - 1;
      WorkIsBounded(trace, actions, m, k);
      AdvanceInRun(trace, actions, k);
      assert k + 1 == n;
    }
  }

  lemma {:induction false} AdvanceInRun(trace: seq<State>, actions: seq<Action>, k: nat)
    requires IsRun(trace, actions) && k < |actions| && !NewCall(actions[k])
    ensures Budget(trace[k + 1].ops) <= Budget(trace[k].ops) - (if Advances(trace[k], actions[k]) then 1 else 0)
  {
    RunKeepsInv(trace, actions, k);
    AdvancingConsumesBudget(trace[k], actions[k]);
  }

  /** `end` is reached from `s` by `count` control moves of actor `i`. */
  ghost predicate Moves(s: State, i: nat, count: nat, end: State)
    decreases count
  {
    if count == 0 then s == end else CanMove(s, i) && Moves(Move(s, i), i, count - 1, end)
  }

  /** The step gets a call of slot `i` on. */
  ghost predicate AdvancesSlot(s: State, a: Action, i: nat) {
    CanStep(s, a) && Advances(s, a) && Subject(s, a) < |s.ops| && s.ops[Subject(s, a)].slot == i
  }

  /** After at most two control moves of actor `i`, a call of slot `i` can get on. */
  ghost predicate CanAdvanceSoon(s: State, i: nat) {
    exists count: nat, end, a :: count <= 2 && Moves(s, i, count, end) && AdvancesSlot(end, a, i)
  }

  lemma {:induction false} AdvanceAfter(s: State, i: nat, count: nat, end: State, a: Action)
    requires count <= 2 && Moves(s, i, count, end) && AdvancesSlot(end, a, i)
    ensures CanAdvanceSoon(s, i)
  {
  }

  /** Before shutdown the head of a channel is an operation. */
  lemma {:induction false} HeadIsOperation(s: State, i: nat)
    requires Inv(s) && s.shut.Running? && i < |s.slots| && s.slots[i].queue != []
    ensures s.slots[i].queue[0].Run? && s.slots[i].queue[0].id < |s.ops| && s.ops[s.slots[i].queue[0].id].slot == i
  {
    assert SlotOk(s, i) && SlotLife(s, i);
    assert s.slots[i].queue[0] in s.slots[i].queue && TaskOk(s, i, s.slots[i].queue[0]);
  }

  /** libnfs may at any time answer a held request with an error, while it has control. */
  lemma {:induction false} HeldCanFail(s: State, i: nat) returns (a: Action)
    requires Inv(s) && i < |s.slots| && (s.slots[i].pc.Pump? || s.slots[i].pc.Issue?) && s.slots[i].held != {}
    ensures AdvancesSlot(s, a, i)
  {
    var id :| id in s.slots[i].held;
    assert SlotOk(s, i);
    a := AComplete(i, id, Response(-EIO, Null));
  }

  lemma {:induction false} ServicingActorAdvances(s: State, i: nat)
    requires Inv(s) && s.shut.Running? && i < |s.slots|
    requires s.slots[i].pc.Pump? || (s.slots[i].pc.Issue? && s.slots[i].pc.accepted)
    requires s.slots[i].queue != [] || s.slots[i].inflight > 0
    ensures CanAdvanceSoon(s, i)
  {
    assert SlotOk(s, i);
    if s.slots[i].held != {} {
      var a := HeldCanFail(s, i);
      AdvanceAfter(s, i, 0, s, a);
    } else {
      HeadIsOperation(s, i);
      assert Moves(Move(s, i), i, 0, Move(s, i));
      AdvanceAfter(s, i, 1, Move(s, i), ATake(i));
    }
  }

  lemma {:induction false} LoopingActorAdvances(s: State, i: nat)
    requires Inv(s) && s.shut.Running? && i < |s.slots| && s.slots[i].pc.Check?
    requires s.slots[i].queue != [] || s.slots[i].inflight > 0
    ensures CanAdvanceSoon(s, i)
    ensures exists end, a :: Moves(s, i, 1, end) && AdvancesSlot(end, a, i)
  {
    var s1 := Move(s, i);
    StepKeepsInv(s, AMove(i));
    assert SlotOk(s, i);
    assert Moves(s1, i, 0, s1);
    var a := ATake(i);
    if s.slots[i].inflight > 0 {
      a := HeldCanFail(s1, i);
    } else {
      HeadIsOperation(s, i);
    }
    assert Moves(s, i, 1, s1) && AdvancesSlot(s1, a, i);
    AdvanceAfter(s, i, 1, s1, a);
  }

  lemma {:induction false} DrainingActorAdvances(s: State, i: nat)
    requires Inv(s) && s.shut.Running? && i < |s.slots| && (s.slots[i].pc.Drain? || s.slots[i].pc.PumpDrain?)
    requires s.slots[i].queue != [] || s.slots[i].inflight > 0
    ensures CanAdvanceSoon(s, i)
  {
    if s.slots[i].queue != [] {
      HeadIsOperation(s, i);
      AdvanceAfter(s, i, 0, s, ATake(i));
    } else {
      StepKeepsInv(s, AMove(i));
      LoopingActorAdvances(Move(s, i), i);
      var end, a :| Moves(Move(s, i), i, 1, end) && AdvancesSlot(end, a, i);
      AdvanceAfter(s, i, 2, end, a);
    }
  }

  /** The actor of a slot with work in its channel or at libnfs gets to it. */
  lemma {:induction false} BusyActorAdvances(s: State, i: nat)
    requires Inv(s) && s.shut.Running? && i < |s.slots| && !s.slots[i].rx
    requires s.slots[i].queue != [] || s.slots[i].inflight > 0
    ensures CanAdvanceSoon(s, i)
  {
    assert SlotOk(s, i) && SlotLife(s, i);
    match s.slots[i].pc
    case Idle => HeadIsOperation(s, i); AdvanceAfter(s, i, 0, s, ATake(i));
    case Check => LoopingActorAdvances(s, i);
    case Pump => ServicingActorAdvances(s, i);
    case Issue(id, accepted, _) =>
      if accepted { ServicingActorAdvances(s, i); } else { AdvanceAfter(s, i, 0, s, AAccept(i)); }
    case _ => DrainingActorAdvances(s, i);
  }

  /** No call is ever stuck: while shutdown has not begun and a call has not returned, at most two control moves of
      the actor of its slot enable a step with which a call of that slot gets on. */
  lemma {:induction false} UnansweredCallsAdvance(trace: seq<State>, actions: seq<Action>, n: nat, id: nat)
    requires IsRun(trace, actions) && n < |trace| && trace[n].shut.Running?
    requires id < |trace[n].ops| && trace[n].ops[id].result.None?
    ensures trace[n].ops[id].slot < |trace[n].slots| && CanAdvanceSoon(trace[n], trace[n].ops[id].slot)
  {
    var s := trace[n];
    RunKeepsInv(trace, actions, n);
    assert OpOk(s, id) && OpLife(s, id);
    var i := s.ops[id].slot;
    assert SlotOk(s, i) && SlotLife(s, i);
    match s.ops[id].at
    case Building => AdvanceAfter(s, i, 0, s, AEnsureStarted(id));
    case Started => AdvanceAfter(s, i, 0, s, ASend(id));
    case Gone => AdvanceAfter(s, i, 0, s, AReceive(id));
    case AtLibnfs => assert s.slots[i].held != {}; BusyActorAdvances(s, i);
    case _ => BusyActorAdvances(s, i);
  }

  // ---------------------------------------------------------------------------------------------
  // Termination
  // ---------------------------------------------------------------------------------------------

  /** Control moves left to an actor before it blocks, when libnfs holds nothing and the channel is empty. */
  function MovesLeft(pc: Pc): nat {
    match pc
    case Pump => 4
    case Issue(_, _, _) => 3
    case Drain => 2
    case PumpDrain => 2
    case Check => 1
    case _ => 0
  }

  /** An actor spins only while libnfs holds a request: otherwise each control move brings it nearer to a task or to
      blocking in `recv`. */
  lemma {:induction false} OnlyWaitingSpins(s: State, i: nat)
    requires Inv(s) && CanMove(s, i) && s.slots[i].held == {}
    ensures MovesLeft(Move(s, i).slots[i].pc) < MovesLeft(s.slots[i].pc)
  {
    assert SlotOk(s, i);
  }

  /** Every call has returned, and libnfs holds nothing. */
  ghost predicate AllAnswered(s: State) {
    (forall id :: 0 <= id < |s.ops| ==> s.ops[id].result.Some?) && (forall i :: 0 <= i < |s.slots| ==> s.slots[i].held == {})
  }

  lemma {:induction false} BudgetZero(ops: seq<Op>)
    ensures Budget(ops) == 0 <==> forall id :: 0 <= id < |ops| ==> ops[id].result.Some?
  {
    if ops == [] {
    } else {
      BudgetZero(ops[1..]);
      assert forall id :: 0 < id < |ops| ==> ops[id] == ops[1..][id - 1];
    }
  }

  lemma {:induction false} NoBudgetIsAnswered(s: State)
    requires Inv(s) && Budget(s.ops) == 0
    ensures AllAnswered(s)
  {
    BudgetZero(s.ops);
    forall i | 0 <= i < |s.slots| ensures s.slots[i].held == {} {
      assert SlotOk(s, i);
      forall id | 0 <= id < |s.ops| ensures id !in s.slots[i].held { assert OpOk(s, id); }
      assert forall id :: id !in s.slots[i].held;
    }
  }

  /** A run without new calls that has held as many advancing steps as its budget has answered every call. */
  lemma {:induction false} SpentBudgetAnswersAll(trace: seq<State>, actions: seq<Action>, m: nat, n: nat)
    requires IsRun(trace, actions) && m <= n < |trace|
    requires forall k :: m <= k < n ==> !NewCall(actions[k])
    requires Advanced(trace, actions, m, n) >= Budget(trace[m].ops)
    ensures AllAnswered(trace[n])
  {
    WorkIsBounded(trace, actions, m, n);
    RunKeepsInv(trace, actions, n);
    NoBudgetIsAnswered(trace[n]);
  }

  /** Neither a new call nor a step of `shutdown`. */
  predicate GoesOn(a: Action) {
    !NewCall(a) && !a.AShutdown?
  }

  /** The second run goes on where the first ends, with neither new calls nor `shutdown`. */
  ghost predicate Continues(trace: seq<State>, actions: seq<Action>, trace': seq<State>, actions': seq<Action>) {
    && IsRun(trace', actions') && trace <= trace' && actions <= actions'
    && forall k :: |actions| <= k < |actions'| ==> GoesOn(actions'[k])
  }

  lemma {:induction false} OneMore(trace: seq<State>, actions: seq<Action>, a: Action)
    requires IsRun(trace, actions) && CanStep(trace[|actions|], a) && GoesOn(a)
    ensures Continues(trace, actions, trace + [Step(trace[|actions|], a)], actions + [a])
    ensures Step(trace[|actions|], a).shut == trace[|actions|].shut
  {
  }

  lemma {:induction false} MoveOn(trace: seq<State>, actions: seq<Action>, i: nat, count: nat, end: State)
    returns (trace': seq<State>, actions': seq<Action>)
    requires IsRun(trace, actions) && Moves(trace[|actions|], i, count, end)
    ensures Continues(trace, actions, trace', actions') && trace'[|actions'|] == end && |actions'| == |actions| + count
    ensures end.ops == trace[|actions|].ops && end.shut == trace[|actions|].shut
    decreases count
  {
    if count == 0 {
      trace', actions' := trace, actions;
    } else {
      OneMore(trace, actions, AMove(i));
      trace', actions' := MoveOn(trace + [Move(trace[|actions|], i)], actions + [AMove(i)], i, count - 1, end);
    }
  }

  /** One call gets on, within three steps. */
  lemma {:induction false} GetOn(trace: seq<State>, actions: seq<Action>, id: nat)
    returns (trace': seq<State>, actions': seq<Action>)
    requires IsRun(trace, actions) && trace[|actions|].shut.Running?
    requires id < |trace[|actions|].ops| && trace[|actions|].ops[id].result.None?
    ensures Continues(trace, actions, trace', actions') && |actions'| <= |actions| + 3 && trace'[|actions'|].shut.Running?
    ensures Budget(trace'[|actions'|].ops) < Budget(trace[|actions|].ops)
  {
    UnansweredCallsAdvance(trace, actions, |actions|, id);
    var i := trace[|actions|].ops[id].slot;
    var count: nat, end, a :| count <= 2 && Moves(trace[|actions|], i, count, end) && AdvancesSlot(end, a, i);
    trace', actions' := MoveOn(trace, actions, i, count, end);
    RunKeepsInv(trace', actions', |actions'|);
    AdvancingConsumesBudget(end, a);
    OneMore(trace', actions', a);
    trace', actions' := trace' + [Step(end, a)], actions' + [a];
  }

  /** Before shutdown every run can be continued, without new calls and by at most three steps for each unit of budget,
      until every call has returned. */
  lemma {:induction false} EveryCallCanReturn(trace: seq<State>, actions: seq<Action>)
    returns (trace': seq<State>, actions': seq<Action>)
    requires IsRun(trace, actions) && trace[|actions|].shut.Running?
    ensures Continues(trace, actions, trace', actions') && AllAnswered(trace'[|actions'|])
    ensures |actions'| <= |actions| + 3 * Budget(trace[|actions|].ops)
    decreases Budget(trace[|actions|].ops)
  {
    var s := trace[|actions|];
    BudgetZero(s.ops);
    if Budget(s.ops) == 0 {
      RunKeepsInv(trace, actions, |actions|);
      NoBudgetIsAnswered(s);
      trace', actions' := trace, actions;
    } else {
      var id: nat :| id < |s.ops| && s.ops[id].result.None?;
      trace', actions' := GetOn(trace, actions, id);
      trace', actions' := EveryCallCanReturn(trace', actions');
    }
  }
}
