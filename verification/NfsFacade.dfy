/** The pipelined pool refines a façade that serves one operation at a time: each façade step concerns a
    single call, computes its reply from that call's own request alone, and hands it back unchanged. */
module NfsFacade {
  import opened Wrappers
  import opened Libnfs
  import opened NfsPool
  import opened NfsPoolCalls
  import opened NfsPoolLifecycle

  /** A synchronous call: its request, the outcome once decided, whether the caller has it. */
  datatype Call = Call(request: Cb, outcome: Option<Reply>, returned: bool)

  /** Invoke a new call. */
  ghost predicate Invokes(c: seq<Call>, c': seq<Call>) {
    exists request :: Fresh(request) && c' == c + [Call(request, None, false)]
  }

  /** The server executes one undecided call; the reply depends on its request and the server's answer only. */
  ghost predicate Serves(c: seq<Call>, c': seq<Call>, id: nat) {
    && id < |c| && c[id].outcome.None?
    && exists r ::
         WellFormed(c[id].request.callback, |c[id].request.buffer|, r) &&
         c' == c[id := c[id].(outcome := Some(ReplyOf(c[id].request, r)))]
  }

  /** The request is refused with a negative status, and nothing is written into its buffer. */
  ghost predicate Refuses(c: seq<Call>, c': seq<Call>, id: nat) {
    && id < |c| && c[id].outcome.None?
    && exists status :: status < 0 && c' == c[id := c[id].(outcome := Some(Err(c[id].request, status)))]
  }

  /** The call returns EIO without having reached the server. */
  ghost predicate Drops(c: seq<Call>, c': seq<Call>, id: nat) {
    id < |c| && c[id].outcome.None? &&
    c' == c[id := c[id].(outcome := Some(Err(c[id].request, -EIO)), returned := true)]
  }

  /** A decided call returns its outcome, once. */
  ghost predicate Returns(c: seq<Call>, c': seq<Call>, id: nat) {
    id < |c| && c[id].outcome.Some? && !c[id].returned && c' == c[id := c[id].(returned := true)]
  }

  ghost predicate FacadeStep(c: seq<Call>, c': seq<Call>) {
    Invokes(c, c') ||
    exists id :: Serves(c, c', id) || Refuses(c, c', id) || Drops(c, c', id) || Returns(c, c', id)
  }

  /** What a caller-side observer sees of one pipelined call. */
  function AbsOp(op: Op): Call {
    Call(op.cb, if op.result.Some? then op.result else if op.mailbox != [] then Some(op.mailbox[0]) else None, op.result.Some?)
  }

  function Abs(s: State): seq<Call> {
    seq(|s.ops|, id requires 0 <= id < |s.ops| => AbsOp(s.ops[id]))
  }

  /** If only one call changes, the abstraction changes at that call. */
  lemma {:induction false} AbsUpdate(s: State, s': State, id: nat)
    requires id < |s.ops| && |s'.ops| == |s.ops|
    requires forall k :: 0 <= k < |s.ops| && k != id ==> s'.ops[k] == s.ops[k]
    ensures Abs(s') == Abs(s)[id := AbsOp(s'.ops[id])]
  {
  }

  lemma {:induction false} InvocationRefines(s: State, a: Action)
    requires Inv(s) && CanStep(s, a) && (a.APath? || a.AOpen? || a.ARead? || a.AClose?)
    ensures Abs(Step(s, a)) == Abs(s) || Invokes(Abs(s), Abs(Step(s, a)))
  {
    var s' := Step(s, a);
    if s'.ops != s.ops {
      assert Abs(s') == Abs(s) + [Call(a.cb, None, false)];
    } else {
      assert Abs(s') == Abs(s);
    }
  }

  lemma {:induction false} AnswerRefines(s: State, a: Action)
    requires Inv(s) && CanStep(s, a) && (a.AComplete? || a.AReject?)
    ensures FacadeStep(Abs(s), Abs(Step(s, a)))
  {
    var s' := Step(s, a);
    assert SlotOk(s, a.i);
    var id := if a.AComplete? then a.id else s.slots[a.i].pc.id;
    assert OpOk(s, id);
    AbsUpdate(s, s', id);
    if a.AComplete? {
      assert Abs(s') == Abs(s)[id := Abs(s)[id].(outcome := Some(ReplyOf(Abs(s)[id].request, a.r)))];
      assert Serves(Abs(s), Abs(s'), id);
    } else {
      assert Abs(s') == Abs(s)[id := Abs(s)[id].(outcome := Some(Err(Abs(s)[id].request, a.status)))];
      assert Refuses(Abs(s), Abs(s'), id);
    }
  }

  lemma {:induction false} ReturnRefines(s: State, a: Action)
    requires Inv(s) && CanStep(s, a) && (a.ASend? || a.AReceive? || a.AReceiveNone?)
    ensures Abs(Step(s, a)) == Abs(s) || FacadeStep(Abs(s), Abs(Step(s, a)))
  {
    var s', id := Step(s, a), a.id;
    assert OpOk(s, id);
    AbsUpdate(s, s', id);
    if a.AReceive? {
      assert Returns(Abs(s), Abs(s'), id);
    } else if s'.ops[id].result.Some? {
      assert Drops(Abs(s), Abs(s'), id);
    }
  }

  lemma {:induction false} SilentRefines(s: State, a: Action)
    requires Inv(s) && CanStep(s, a)
    requires a.AEnsureStarted? || a.ARegister? || a.ATake? || a.AMove? || a.AAccept? || a.AFree? || a.AShutdown?
    ensures Abs(Step(s, a)) == Abs(s)
  {
    var s' := Step(s, a);
    if a.ATake? { assert SlotOk(s, a.i) && TaskOk(s, a.i, s.slots[a.i].queue[0]); }
    forall id | 0 <= id < |s'.ops| ensures AbsOp(s'.ops[id]) == AbsOp(s.ops[id]) { assert OpOk(s, id); }
  }

  /** Each step of the pool is a step of the façade or invisible to its callers. */
  lemma {:induction false} StepRefines(s: State, a: Action)
    requires Inv(s) && CanStep(s, a)
    ensures Abs(Step(s, a)) == Abs(s) || FacadeStep(Abs(s), Abs(Step(s, a)))
  {
    if a.APath? || a.AOpen? || a.ARead? || a.AClose? {
      InvocationRefines(s, a);
    } else if a.AComplete? || a.AReject? {
      AnswerRefines(s, a);
    } else if a.ASend? || a.AReceive? || a.AReceiveNone? {
      ReturnRefines(s, a);
    } else {
      SilentRefines(s, a);
    }
  }

  ghost predicate IsFacadeRun(run: seq<seq<Call>>) {
    |run| > 0 && run[0] == [] && forall k :: 0 <= k < |run| - 1 ==> FacadeStep(run[k], run[k + 1])
  }

  /** Position by position, the façade run shows what callers of the pool see, each pool step taking the façade one
      step further or none. */
  ghost predicate IsImage(run: seq<seq<Call>>, at: seq<nat>, trace: seq<State>, n: nat) {
    && n < |trace| && |at| == n + 1
    && at[0] == 0 && at[n] == |run| - 1
    && (forall k :: 0 <= k < n ==> at[k] <= at[k + 1] <= at[k] + 1)
    && (forall k :: 0 <= k <= n ==> at[k] < |run| && run[at[k]] == Abs(trace[k]))
  }

  /** Every run of the pool, whatever its interleaving, is a run of the façade all along, but for stuttering. */
  lemma {:induction false} RunRefines(trace: seq<State>, actions: seq<Action>, n: nat)
    returns (run: seq<seq<Call>>, at: seq<nat>)
    requires IsRun(trace, actions) && n < |trace|
    ensures IsFacadeRun(run) && IsImage(run, at, trace, n)
  {
    if n == 0 {
      run, at := [[]], [0];
    } else {
      run, at := RunRefines(trace, actions, n - 1);
      RunKeepsInv(trace, actions, n - 1);
      StepRefines(trace[n - 1], actions[n - 1]);
      if Abs(trace[n]) != Abs(trace[n - 1]) {
        run := run + [Abs(trace[n])];
      }
      at := at + [|run| - 1];
    }
  }

  /** On the façade, a decided outcome never changes and a returned call stays returned: what a caller was
      handed is final. */
  lemma {:induction false} FacadeOutcomesAreFinal(run: seq<seq<Call>>, m: nat, n: nat, id: nat)
    requires IsFacadeRun(run) && m <= n < |run| && id < |run[m]|
    ensures id < |run[n]| && run[n][id].request == run[m][id].request
    ensures run[m][id].outcome.Some? ==> run[n][id].outcome == run[m][id].outcome
    ensures run[m][id].returned ==> run[n][id].returned
    decreases n
  {
    if m == n {
    } else {
      FacadeOutcomesAreFinal(run, m, n - 1, id);
      assert FacadeStep(run[n - 1], run[n - 1 + 1]);
    }
  }

  lemma {:induction false} ImageIsMonotone(run: seq<seq<Call>>, at: seq<nat>, trace: seq<State>, n: nat, m: nat)
    requires IsImage(run, at, trace, n) && m <= n
    ensures at[m] <= at[n]
    decreases n - m
  {
    if m == n {
    } else {
      ImageIsMonotone(run, at, trace, n, m + 1);
    }
  }

  /** In the pool too: whatever a call was answered or returned stays as it is for the rest of the run, and so does
      its request. */
  lemma {:induction false} OutcomesAreFinal(trace: seq<State>, actions: seq<Action>, m: nat, n: nat, id: nat)
    requires IsRun(trace, actions) && m <= n < |trace| && id < |trace[m].ops|
    ensures id < |trace[n].ops| && trace[n].ops[id].cb == trace[m].ops[id].cb
    ensures var before, after := AbsOp(trace[m].ops[id]), AbsOp(trace[n].ops[id]);
      (before.outcome.Some? ==> after.outcome == before.outcome) && (before.returned ==> after.returned)
  {
    var run, at := RunRefines(trace, actions, n);
    ImageIsMonotone(run, at, trace, n, m);
    assert run[at[m]] == Abs(trace[m]) && run[at[n]] == Abs(trace[n]);
    FacadeOutcomesAreFinal(run, at[m], at[n], id);
    assert Abs(trace[m])[id] == AbsOp(trace[m].ops[id]) && Abs(trace[n])[id] == AbsOp(trace[n].ops[id]);
  }
}
