/** One slot's service thread as code: `update_rpc_credentials`, `handle_task`, `complete` and `runner` of
    src/nfscli.rs over mutable state.  libnfs and the workers are its environment: they decide how each
    request fares, in which order replies arrive and when further tasks show up in the channel. */
module NfsActor {
  import opened Wrappers
  import opened Libnfs

  // ---------------------------------------------------------------------------------------------
  // Credentials
  // ---------------------------------------------------------------------------------------------

  type U32 = u: int | 0 <= u < 0x1_0000_0000
  type I32 = i: int | -0x8000_0000 <= i < 0x8000_0000

  /** Rust's `as i32` on a `u32` */
  function AsI32(u: U32): I32 {
    if u < 0x8000_0000 then u else u - 0x1_0000_0000
  }

  datatype Cfg = Cfg(customUid: I32, customGid: I32, allowOtherOwnIds: bool, mountUserUid: U32, mountUserGid: U32)
  datatype Caller = Caller(uid: U32, gid: U32)
  datatype Ids = Ids(uid: I32, gid: I32)

  /** The condition `update_rpc_credentials` evaluates for the uid, and in the same way for the gid. */
  predicate UseCaller(custom: I32, allowOther: bool, caller: U32, mountUser: U32) {
    (custom == -1 && !allowOther) || (allowOther && (custom == -1 || caller != mountUser))
  }

  /** The pair `update_rpc_credentials` installs on the context. */
  function Installed(cfg: Cfg, caller: Caller): Ids {
    Ids(if UseCaller(cfg.customUid, cfg.allowOtherOwnIds, caller.uid, cfg.mountUserUid)
        then AsI32(caller.uid) else cfg.customUid,
        if UseCaller(cfg.customGid, cfg.allowOtherOwnIds, caller.gid, cfg.mountUserGid)
        then AsI32(caller.gid) else cfg.customGid)
  }

  /** The id goes over the wire as the 32 bits of `u`. */
  predicate SameBits(id: I32, u: U32) {
    id % 0x1_0000_0000 == u
  }

  /** Who an operation of this caller is to run as.  The uid is the caller's when no custom uid is set, or when others keep
      their own ids and the caller is not the mounting user; otherwise it is the custom uid, which is then never the
      unset -1.  Likewise the gid. */
  predicate RunsAs(cfg: Cfg, caller: Caller, ids: Ids) {
    && (cfg.customUid == -1 || (cfg.allowOtherOwnIds && caller.uid != cfg.mountUserUid) ==> SameBits(ids.uid, caller.uid))
    && (cfg.customUid != -1 && !(cfg.allowOtherOwnIds && caller.uid != cfg.mountUserUid) ==>
          ids.uid == cfg.customUid && ids.uid != -1)
    && (cfg.customGid == -1 || (cfg.allowOtherOwnIds && caller.gid != cfg.mountUserGid) ==> SameBits(ids.gid, caller.gid))
    && (cfg.customGid != -1 && !(cfg.allowOtherOwnIds && caller.gid != cfg.mountUserGid) ==>
          ids.gid == cfg.customGid && ids.gid != -1)
  }

  /** Ids below 2^31 are sent as they are, and no two callers' ids as the same. */
  lemma {:induction false} BitsIdentify(id: I32, u: U32, v: U32)
    requires SameBits(id, u)
    ensures u < 0x8000_0000 ==> id == u
    ensures SameBits(id, v) ==> u == v
    ensures forall other: I32 :: SameBits(other, u) ==> other == id
  {
  }

  lemma {:induction false} AsI32KeepsBits(u: U32)
    ensures SameBits(AsI32(u), u)
  {
  }

  /** What is installed is who the operation is to run as, and nothing else would be. */
  lemma {:induction false} WhoAnOperationRunsAs(cfg: Cfg, caller: Caller)
    ensures RunsAs(cfg, caller, Installed(cfg, caller))
    ensures forall ids :: RunsAs(cfg, caller, ids) ==> ids == Installed(cfg, caller)
  {
    AsI32KeepsBits(caller.uid);
    AsI32KeepsBits(caller.gid);
    forall ids | RunsAs(cfg, caller, ids) ensures ids == Installed(cfg, caller) {
      if SameBits(ids.uid, caller.uid) { BitsIdentify(ids.uid, caller.uid, caller.uid); }
      if SameBits(ids.gid, caller.gid) { BitsIdentify(ids.gid, caller.gid, caller.gid); }
    }
  }

  // ---------------------------------------------------------------------------------------------
  // Tasks and what is expected of them
  // ---------------------------------------------------------------------------------------------

  /** How libnfs will treat a request: refuse it (no callback), queue it and answer later, or run its callback
      inside the issue call. */
  datatype Fate = Refuse(status: int) | Later(response: Response) | AtOnce(response: Response)

  datatype Task = Quit | Op(id: nat, creds: Option<Caller>, cb: Cb, fate: Fate)

  predicate TaskOk(t: Task) {
    t.Op? ==>
      match t.fate
      case Refuse(status) => status < 0
      case Later(r) => WellFormed(t.cb.callback, |t.cb.buffer|, r)
      case AtOnce(r) => WellFormed(t.cb.callback, |t.cb.buffer|, r)
  }

  /** Requests are separate heap objects: their ids differ. */
  predicate Tasks(ts: seq<Task>) {
    && (forall k :: 0 <= k < |ts| ==> TaskOk(ts[k]))
    && (forall j, k :: 0 <= j < k < |ts| && ts[j].Op? && ts[k].Op? ==> ts[j].id != ts[k].id)
  }

  /** The reply the caller of `t` is owed, whatever else is in flight. */
  function Expected(t: Task): Reply
    requires t.Op? && TaskOk(t)
  {
    match t.fate
    case Refuse(status) => Reply(status, 0, t.cb.buffer)
    case Later(r) => ReplyOf(t.cb, r)
    case AtOnce(r) => ReplyOf(t.cb, r)
  }

  /** The operations in front of the first `Quit`. */
  function BeforeQuit(ts: seq<Task>): seq<Task> {
    if ts == [] || ts[0].Quit? then [] else [ts[0]] + BeforeQuit(ts[1..])
  }

  predicate AllOps(ts: seq<Task>) {
    forall k :: 0 <= k < |ts| ==> ts[k].Op?
  }

  /** `BeforeQuit` is the longest prefix without a `Quit`. */
  lemma {:induction false} BeforeQuitIsPrefix(handled: seq<Task>, rest: seq<Task>)
    requires AllOps(handled) && (rest == [] || rest[0].Quit?)
    ensures BeforeQuit(handled + rest) == handled
  {
    if handled == [] {
      assert handled + rest == rest;
    } else {
      BeforeQuitIsPrefix(handled[1..], rest);
      assert (handled + rest)[1..] == handled[1..] + rest;
    }
  }

  /** A request as it reached libnfs: which one, and under which ids. */
  datatype Issued = Issued(id: nat, ids: Ids)

  function IdsAfter(cfg: Cfg, ids: Ids, t: Task): Ids {
    if t.Op? && t.creds.Some? then Installed(cfg, t.creds.value) else ids
  }

  /** What a batch of operations looks like to libnfs when it starts with `ids` installed. */
  function IssueLog(cfg: Cfg, ids: Ids, ts: seq<Task>): seq<Issued>
    requires AllOps(ts)
    decreases ts
  {
    if ts == [] then [] else [Issued(ts[0].id, IdsAfter(cfg, ids, ts[0]))] + IssueLog(cfg, IdsAfter(cfg, ids, ts[0]), ts[1..])
  }

  function LastIds(cfg: Cfg, ids: Ids, ts: seq<Task>): Ids
    requires AllOps(ts)
    decreases ts
  {
    if ts == [] then ids else LastIds(cfg, IdsAfter(cfg, ids, ts[0]), ts[1..])
  }

  lemma {:induction false} IssueLogAppend(cfg: Cfg, ids: Ids, ts: seq<Task>, t: Task)
    requires AllOps(ts) && t.Op?
    ensures IssueLog(cfg, ids, ts + [t]) ==
            IssueLog(cfg, ids, ts) + [Issued(t.id, IdsAfter(cfg, LastIds(cfg, ids, ts), t))]
    ensures LastIds(cfg, ids, ts + [t]) == IdsAfter(cfg, LastIds(cfg, ids, ts), t)
    decreases ts
  {
    if ts == [] {
    } else {
      IssueLogAppend(cfg, IdsAfter(cfg, ids, ts[0]), ts[1..], t);
      assert (ts + [t])[1..] == ts[1..] + [t];
    }
  }

  /** In a batch of any size and order, an operation that carries caller ids runs under the ids of its own
      caller, independent of every other task; one without runs under the pair installed last. */
  lemma {:induction false} BatchCredentials(cfg: Cfg, ids: Ids, ts: seq<Task>, k: nat)
    requires AllOps(ts) && k < |ts|
    ensures |IssueLog(cfg, ids, ts)| == |ts|
    ensures var log := IssueLog(cfg, ids, ts);
      && log[k].id == ts[k].id
      && (ts[k].creds.Some? ==> RunsAs(cfg, ts[k].creds.value, log[k].ids))
      && (ts[k].creds.None? ==> log[k].ids == if k == 0 then ids else log[k - 1].ids)
    decreases ts
  {
    var ids' := IdsAfter(cfg, ids, ts[0]);
    if k == 0 {
      if ts[0].creds.Some? { WhoAnOperationRunsAs(cfg, ts[0].creds.value); }
      if |ts| > 1 { BatchCredentials(cfg, ids', ts[1..], 0); }
    } else {
      BatchCredentials(cfg, ids', ts[1..], k - 1);
    }
  }

  ghost function IdsOf(ts: seq<Task>): set<nat> {
    set t | t in ts && t.Op? :: t.id
  }

  /** Each handled operation is either at libnfs and unanswered, or answered with its own reply; the counter
      counts the former. */
  ghost predicate Accounted(inflight: int, held: set<Task>, replies: map<nat, Reply>, handled: seq<Task>) {
    && Tasks(handled) && AllOps(handled)
    && inflight == |held|
    && (forall t :: t in held ==> t in handled && t.fate.Later? && t.id !in replies)
    && (forall t :: t in handled && t !in held ==> t.id in replies && replies[t.id] == Expected(t))
    && replies.Keys <= IdsOf(handled)
  }

  /** The next task of a channel is well formed, and a `Quit` ends what is issued. */
  lemma {:induction false} NextTask(handled: seq<Task>, t: Task, rest: seq<Task>)
    requires Tasks(handled + [t] + rest) && AllOps(handled)
    ensures Tasks(handled + [t]) && TaskOk(t)
    ensures t.Quit? ==> BeforeQuit(handled + [t] + rest) == handled
  {
    assert forall k :: 0 <= k < |handled + [t]| ==> (handled + [t])[k] == (handled + [t] + rest)[k];
    assert (handled + [t])[|handled|] == t;
    if t.Quit? {
      BeforeQuitIsPrefix(handled, [t] + rest);
      assert handled + [t] + rest == handled + ([t] + rest);
    }
  }

  /** A fresh task is none of the handled ones. */
  lemma {:induction false} FreshTask(inflight: int, held: set<Task>, replies: map<nat, Reply>, handled: seq<Task>, t: Task)
    requires t.Op? && Tasks(handled + [t]) && Accounted(inflight, held, replies, handled)
    ensures t !in handled && t !in held && t.id !in replies && AllOps(handled + [t]) && TaskOk(t)
    ensures forall u :: u in handled ==> u.id != t.id
  {
    assert (handled + [t])[|handled|] == t;
    forall u | u in handled ensures u.id != t.id {
      var k :| 0 <= k < |handled| && handled[k] == u;
      assert (handled + [t])[k] == u;
    }
  }

  /** Once `handle_task` is through with a fresh task, it is at libnfs and counted, or answered. */
  lemma {:induction false} Settled(inflight: int, held: set<Task>, replies: map<nat, Reply>, handled: seq<Task>, t: Task)
    requires t.Op? && TaskOk(t) && Tasks(handled + [t]) && Accounted(inflight, held, replies, handled)
    ensures t.fate.Later? ==> Accounted(inflight + 1, held + {t}, replies, handled + [t])
    ensures !t.fate.Later? ==> Accounted(inflight, held, replies[t.id := Expected(t)], handled + [t])
  {
    FreshTask(inflight, held, replies, handled, t);
    assert IdsOf(handled + [t]) == IdsOf(handled) + {t.id} by {
      assert forall u :: u in handled + [t] <==> u in handled || u == t;
    }
  }

  lemma {:induction false} AnsweredLater(inflight: int, held: set<Task>, replies: map<nat, Reply>, handled: seq<Task>, t: Task)
    requires t in held && Accounted(inflight, held, replies, handled)
    ensures Accounted(inflight - 1, held - {t}, replies[t.id := Expected(t)], handled)
  {
    assert t in handled;
    forall u | u in handled && u != t ensures u.id != t.id {
      var j :| 0 <= j < |handled| && handled[j] == u;
      var k :| 0 <= k < |handled| && handled[k] == t;
    }
  }

  // ---------------------------------------------------------------------------------------------
  // The actor
  // ---------------------------------------------------------------------------------------------

  class Actor {
    const cfg: Cfg
    /** The channel, and what workers have yet to put into it. */
    var queue: seq<Task>
    var future: seq<Task>
    var inflight: int
    /** Requests accepted by libnfs whose callback has not run. */
    var held: set<Task>
    /** The ids set on the context. */
    var ids: Ids
    var issued: seq<Issued>
    /** The replies sent, by request. */
    var replies: map<nat, Reply>

    constructor (cfg: Cfg, ids: Ids, tasks: seq<Task>)
      ensures this.cfg == cfg && this.ids == ids && queue == [] && future == tasks
      ensures inflight == 0 && held == {} && issued == [] && replies == map[]
    {
      this.cfg, this.ids := cfg, ids;
      queue, future := [], tasks;
      inflight, held, issued, replies := 0, {}, [], map[];
    }

    /** The observable state after handling `handled`, starting from `ids0`. */
    ghost predicate Progress(ids0: Ids, handled: seq<Task>)
      reads this
    {
      Accounted(inflight, held, replies, handled) && issued == IssueLog(cfg, ids0, handled) && ids == LastIds(cfg, ids0, handled)
    }

    method UpdateRpcCredentials(caller: Caller)
      modifies `ids
      ensures ids == Installed(cfg, caller) && RunsAs(cfg, caller, ids)
    {
      var useCallerUid := (cfg.customUid == -1 && !cfg.allowOtherOwnIds)
        || (cfg.allowOtherOwnIds && (cfg.customUid == -1 || caller.uid != cfg.mountUserUid));
      var useCallerGid := (cfg.customGid == -1 && !cfg.allowOtherOwnIds)
        || (cfg.allowOtherOwnIds && (cfg.customGid == -1 || caller.gid != cfg.mountUserGid));
      if useCallerUid {
        ids := ids.(uid := AsI32(caller.uid));
      } else {
        ids := ids.(uid := cfg.customUid);
      }
      if useCallerGid {
        ids := ids.(gid := AsI32(caller.gid));
      } else {
        ids := ids.(gid := cfg.customGid);
      }
      WhoAnOperationRunsAs(cfg, caller);
    }

    /** The callback of a request: deliver, uncount, reply. */
    method Complete(t: Task, r: Response)
      requires t.Op? && WellFormed(t.cb.callback, |t.cb.buffer|, r)
      modifies `inflight, `replies
      ensures inflight == old(inflight) - 1 && replies == old(replies)[t.id := ReplyOf(t.cb, r)]
    {
      var reply := ReplyOf(t.cb, r);
      inflight := inflight - 1;
      replies := replies[t.id := reply];
    }

    /** The asynchronous libnfs call: negative when the request was not queued. */
    method Issue(t: Task) returns (ret: int)
      requires t.Op? && TaskOk(t)
      modifies `inflight, `replies, `held, `issued
      ensures issued == old(issued) + [Issued(t.id, ids)]
      ensures t.fate.Refuse? ==> ret == t.fate.status && inflight == old(inflight) && replies == old(replies) && held == old(held)
      ensures t.fate.Later? ==> ret == 0 && inflight == old(inflight) && replies == old(replies) && held == old(held) + {t}
      ensures t.fate.AtOnce? ==>
        ret == 0 && inflight == old(inflight) - 1 && replies == old(replies)[t.id := Expected(t)] && held == old(held)
    {
      issued := issued + [Issued(t.id, ids)];
      match t.fate
      case Refuse(status) => ret := status;
      case Later(_) => held := held + {t}; ret := 0;
      case AtOnce(r) => Complete(t, r); ret := 0;
    }

    /** Issue one task; false when it was the shutdown request. */
    method HandleTask(t: Task, ghost ids0: Ids, ghost handled: seq<Task>) returns (go: bool)
      requires Progress(ids0, handled) && Tasks(handled + [t]) && TaskOk(t)
      modifies `inflight, `replies, `held, `issued, `ids
      ensures go <==> t.Op?
      ensures !go ==> Progress(ids0, handled)
      ensures go ==> Progress(ids0, handled + [t]) && |held| <= |old(held)| + 1
    {
      if t.Quit? {
        return false;
      }
      ghost var count, held0, replies0 := inflight, held, replies;
      if t.creds.Some? {
        UpdateRpcCredentials(t.creds.value);
      }
      inflight := inflight + 1;
      var ret := Issue(t);
      if ret < 0 {
        inflight := inflight - 1;
        replies := replies[t.id := Err(t.cb, ret)];
      }
      Settled(count, held0, replies0, handled, t);
      IssueLogAppend(cfg, ids0, handled, t);
      go := true;
    }

    /** One round of wait-and-service that finds replies: one or more held requests complete, in any order.
        A round that finds none changes nothing and is left out. */
    method Pump(ghost ids0: Ids, ghost handled: seq<Task>)
      requires Progress(ids0, handled) && inflight > 0
      modifies `inflight, `replies, `held
      ensures Progress(ids0, handled) && |held| < |old(held)|
    {
      var rounds: nat :| 0 < rounds <= |held|;
      for k := 0 to rounds
        invariant |held| == |old(held)| - k
        invariant Progress(ids0, handled)
      {
        var t :| t in held;
        AnsweredLater(inflight, held, replies, handled, t);
        held := held - {t};
        Complete(t, t.fate.response);
      }
    }

    /** Workers put some of their remaining tasks into the channel. */
    method Arrive(atLeast: nat)
      requires atLeast <= |future|
      modifies `queue, `future
      ensures queue + future == old(queue + future) && |queue| >= |old(queue)| + atLeast
    {
      var n: nat :| atLeast <= n <= |future|;
      queue, future := queue + future[..n], future[n..];
    }

    /** `rx.try_recv()` */
    method TryRecv() returns (t: Option<Task>)
      modifies `queue, `future
      ensures t.Some? ==> [t.value] + (queue + future) == old(queue + future)
      ensures t.None? ==> queue + future == old(queue + future) && queue == []
    {
      Arrive(0);
      if queue == [] {
        return None;
      }
      t := Some(queue[0]);
      queue := queue[1..];
    }

    /** `rx.recv()`: waits for a task; fails when no worker is left. */
    method Recv() returns (t: Option<Task>)
      modifies `queue, `future
      ensures t.Some? ==> [t.value] + (queue + future) == old(queue + future)
      ensures t.None? ==> queue + future == old(queue + future) == []
    {
      if queue == [] && future == [] {
        return None;
      }
      if queue == [] {
        Arrive(1);
      }
      t := Some(queue[0]);
      queue := queue[1..];
    }

    /** `while let Ok(t) = rx.try_recv()`: issue everything that is queued; false when a `Quit` was met. */
    method DrainQueue(ghost ids0: Ids, ghost handled: seq<Task>) returns (go: bool, ghost handled': seq<Task>)
      requires Progress(ids0, handled) && Tasks(handled + (queue + future))
      modifies this
      ensures Progress(ids0, handled')
      ensures go ==> handled' + (queue + future) == handled + old(queue + future)
      ensures go ==> 2 * |queue + future| + |held| <= 2 * |old(queue + future)| + |old(held)|
      ensures !go ==> BeforeQuit(handled + old(queue + future)) == handled' != handled + old(queue + future)
    {
      ghost var total := handled + (queue + future);
      handled' := handled;
      var next := TryRecv();
      while next.Some?
        invariant next.Some? ==> total == handled' + [next.value] + (queue + future)
        invariant next.None? ==> total == handled' + (queue + future)
        invariant Progress(ids0, handled')
        invariant 2 * |queue + future| + |held| + (if next.Some? then 2 else 0) <= 2 * |old(queue + future)| + |old(held)|
        decreases |queue + future| + if next.Some? then 1 else 0
      {
        NextTask(handled', next.value, queue + future);
        go := HandleTask(next.value, ids0, handled');
        if !go {
          return;
        }
        handled' := handled' + [next.value];
        ghost var rest := queue + future;
        next := TryRecv();
        assert next.Some? ==> total == handled' + ([next.value] + (queue + future));
      }
      go := true;
    }

    /** The actor loop.  Whatever the interleaving of arrivals and replies: exactly the operations in front of the
        first `Quit` are issued, each once, in channel order and under the right ids; every one is answered
        with its own reply unless it is still at libnfs; and without a `Quit` none is, when the workers are
        done. */
    method Runner()
      requires inflight == 0 && held == {} && replies == map[] && issued == [] && Tasks(queue + future)
      modifies this
      ensures var ops := BeforeQuit(old(queue + future));
        && AllOps(ops)
        && issued == IssueLog(cfg, old(ids), ops)
        && Accounted(inflight, held, replies, ops)
        && (ops == old(queue + future) ==> held == {} && inflight == 0)
    {
      ghost var total, ids0, handled := queue + future, ids, [];
      while true
        invariant total == handled + (queue + future)
        invariant Progress(ids0, handled) && held == {}
        decreases |queue + future|
      {
        ghost var rest := queue + future;
        var next := Recv();
        if next.None? {
          BeforeQuitIsPrefix(handled, []);
          assert total == handled + [];
          return;
        }
        assert total == handled + [next.value] + (queue + future);
        NextTask(handled, next.value, queue + future);
        var go := HandleTask(next.value, ids0, handled);
        if !go {
          return;
        }
        go, handled := DrainQueue(ids0, handled + [next.value]);
        if !go {
          return;
        }
        while inflight > 0
          invariant total == handled + (queue + future)
          invariant Progress(ids0, handled)
          invariant |queue + future| < |rest|
          decreases 2 * |queue + future| + |held|
        {
          Pump(ids0, handled);
          go, handled := DrainQueue(ids0, handled);
          if !go {
            return;
          }
        }
      }
    }
  }
}
