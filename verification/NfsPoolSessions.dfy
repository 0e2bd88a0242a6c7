/** What an open-file session gets from the pool: a handle if and only if the server gave one, its registration, and
    its reads and its close on the context that has it. */
module NfsPoolSessions {
  import opened Wrappers
  import opened Libnfs
  import opened NfsPool
  import opened NfsPoolCalls
  import opened NfsPoolLifecycle
  import opened NfsPoolHandles

  /** At step `n` the call returns. */
  ghost predicate ReturnsAt(trace: seq<State>, actions: seq<Action>, n: nat, id: nat) {
    && IsRun(trace, actions) && n < |actions|
    && id < |trace[n].ops| && trace[n].ops[id].result.None?
    && id < |trace[n + 1].ops| && trace[n + 1].ops[id].result.Some?
  }

  /** The server gave out the handle `p`. */
  predicate GaveHandle(v: Verdict, p: nat) {
    v.Answered? && v.response.status >= 0 && v.response.data == Fh(p) && p != 0
  }

  /** Only its own return makes a call return. */
  lemma {:induction false} ReturningStep(s: State, a: Action, id: nat)
    requires Inv(s) && CanStep(s, a) && id < |s.ops| && s.ops[id].result.None?
    requires id < |Step(s, a).ops| && Step(s, a).ops[id].result.Some?
    ensures (a.AReceive? || a.AReceiveNone? || a.ASend?) && a.id == id
    ensures s.ops[id].mailbox != [] <==> a.AReceive?
  {
    assert OpOk(s, id);
  }

  /** When a call of `open` returns, its session has the server's handle, on the slot it was opened on, if the server
      answered with success and gave one, and has failed otherwise: on an error, on success without a handle, on a
      refusal, and when the request was never issued. */
  lemma {:induction false} OpenReturns(trace: seq<State>, actions: seq<Action>, n: nat, id: nat)
    requires ReturnsAt(trace, actions, n, id) && trace[n].ops[id].kind.OpenOp?
    ensures var f, op := trace[n].ops[id].kind.file, trace[n].ops[id];
      && f < |trace[n + 1].files|
      && (forall p :: GaveHandle(op.verdict, p) <==> trace[n + 1].files[f] == Got(p, op.slot))
      && ((forall p :: !GaveHandle(op.verdict, p)) ==> trace[n + 1].files[f] == OpenFailed)
  {
    var s, a := trace[n], actions[n];
    RunKeepsHandles(trace, actions, n);
    assert trace[n + 1] == Step(s, a);
    ReturningStep(s, a, id);
    assert OpOk(s, id) && SessionOk(s, id);
    if a.AReceive? && s.ops[id].verdict.Answered? {
      OpenReply(s.ops[id], s.ops[id].verdict.response);
    }
  }

  lemma {:induction false} OpenReply(op: Op, r: Response)
    requires op.cb.callback.Open? && Fresh(op.cb) && WellFormed(Open, |op.cb.buffer|, r)
    ensures ReplyOf(op.cb, r).status == r.status
    ensures ReplyOf(op.cb, r).ptr == if r.status >= 0 && r.data.Fh? then r.data.addr else 0
  {
    ReplyIs(op.cb, r);
  }

  /** Registration makes the session live under its handle and enters just that handle, with its slot. */
  lemma {:induction false} RegisterMakesLive(trace: seq<State>, actions: seq<Action>, n: nat)
    requires IsRun(trace, actions) && n < |actions| && actions[n].ARegister?
    ensures var s, s', f := trace[n], trace[n + 1], actions[n].f;
      && f < |s.files| && s.files[f].Got? && f < |s'.files|
      && s'.files[f] == Live(s.files[f].fh, {})
      && s'.openFiles.Keys == s.openFiles.Keys + {s.files[f].fh}
      && s'.openFiles[s.files[f].fh] == s.files[f].slot
      && forall p :: p in s.openFiles && p != s.files[f].fh ==> s'.openFiles[p] == s.openFiles[p]
  {
    assert CanStep(trace[n], actions[n]) && trace[n + 1] == Step(trace[n], actions[n]);
  }

  /** Until `shutdown` clears the map a read of a live session starts a call on the slot that has its handle. */
  lemma {:induction false} ReadStarts(trace: seq<State>, actions: seq<Action>, n: nat)
    requires IsRun(trace, actions) && n < |actions| && actions[n].ARead? && !trace[n].shut.Finished?
    ensures var s, s', f := trace[n], trace[n + 1], actions[n].f;
      && f < |s.files| && s.files[f].Live? && |s'.ops| == |s.ops| + 1
      && var op := s'.ops[|s.ops|];
         && op.kind == ReadOp(f, s.files[f].fh) && op.at.Building? && op.cb == actions[n].cb
         && OwnedBy(s, s.files[f].fh, op.slot, f)
         && s'.files[f] == Live(s.files[f].fh, s.files[f].readers + {|s.ops|})
  {
    var s, f := trace[n], actions[n].f;
    RunKeepsHandles(trace, actions, n);
    assert FileOk(s, f) && EntryOk(s, s.files[f].fh);
  }

  /** A returning read leaves its session open, without itself among the readers. */
  lemma {:induction false} ReadReturns(trace: seq<State>, actions: seq<Action>, n: nat, id: nat)
    requires ReturnsAt(trace, actions, n, id) && trace[n].ops[id].kind.ReadOp?
    ensures var f := trace[n].ops[id].kind.file;
      && f < |trace[n].files| && trace[n].files[f].Live? && f < |trace[n + 1].files|
      && trace[n + 1].files[f] == Live(trace[n].files[f].fh, trace[n].files[f].readers - {id})
  {
    RunKeepsHandles(trace, actions, n);
    assert trace[n + 1] == Step(trace[n], actions[n]);
    ReturningStep(trace[n], actions[n], id);
    assert SessionOk(trace[n], id);
  }

  /** A release takes the entry out of the map and starts a close on the slot that has the handle; when the close
      returns, whatever its outcome, the session is over. */
  lemma {:induction false} CloseStarts(trace: seq<State>, actions: seq<Action>, n: nat)
    requires IsRun(trace, actions) && n < |actions| && actions[n].AClose? && !trace[n].shut.Finished?
    ensures var s, s', f := trace[n], trace[n + 1], actions[n].f;
      && f < |s.files| && s.files[f].Live? && |s'.ops| == |s.ops| + 1
      && s'.openFiles == s.openFiles - {s.files[f].fh} && s'.files[f] == Closing(s.files[f].fh, |s.ops|)
      && var op := s'.ops[|s.ops|];
         op.kind == CloseOp(f, s.files[f].fh) && op.at.Building? && OwnedBy(s, s.files[f].fh, op.slot, f)
  {
    var s, f := trace[n], actions[n].f;
    RunKeepsHandles(trace, actions, n);
    assert FileOk(s, f) && EntryOk(s, s.files[f].fh);
  }

  lemma {:induction false} CloseReturns(trace: seq<State>, actions: seq<Action>, n: nat, id: nat)
    requires ReturnsAt(trace, actions, n, id) && trace[n].ops[id].kind.CloseOp?
    ensures var f := trace[n].ops[id].kind.file; f < |trace[n + 1].files| && trace[n + 1].files[f] == Released
  {
    RunKeepsHandles(trace, actions, n);
    assert trace[n + 1] == Step(trace[n], actions[n]);
    ReturningStep(trace[n], actions[n], id);
    assert SessionOk(trace[n], id);
  }
}
