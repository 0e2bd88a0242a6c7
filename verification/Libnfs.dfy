/** The completion callbacks of src/libnfs.rs: what each of them writes into the `SyncCbData` that
    travels with a request, and the `Reply` that `complete` (src/nfscli.rs) then sends. */
module Libnfs {
  type Byte = b: int | 0 <= b < 256

  /** errno value of an input/output error */
  const EIO: int := 5

  /** The `data` argument libnfs hands to a callback. */
  datatype Data = Null | Bytes(bytes: seq<Byte>) | Fh(addr: nat)

  /** One answer of libnfs to one accepted request. */
  datatype Response = Response(status: int, data: Data)

  /** Which callback a request was issued with. */
  datatype Callback = Generic | CopyStruct | Open | Read

  /** The value of a `SyncCbData`: `ptr` is what `open_cb` stores in `return_data` (0 is null) and
      `buffer` is the memory `return_data` refers to for the copying callbacks. */
  datatype Cb = Cb(callback: Callback, finished: bool, status: int, ptr: nat, buffer: seq<Byte>)

  /** What the waiting caller receives, together with the contents of its own buffer. */
  datatype Reply = Reply(status: int, ptr: nat, bytes: seq<Byte>)

  /** `Reply::err`: nothing was written into the buffer. */
  function Err(cb: Cb, status: int): Reply {
    Reply(status, 0, cb.buffer)
  }

  function Min(a: int, b: int): int {
    if a <= b then a else b
  }

  /** The libnfs contract on the payload of a successful answer: a read hands over at least `status`
      bytes, a struct callback hands over a whole struct, an open hands over a handle address. */
  predicate WellFormed(callback: Callback, max: nat, r: Response) {
    r.status >= 0 ==>
      match callback
      case Generic => true
      case CopyStruct => r.data.Null? || (r.data.Bytes? && |r.data.bytes| >= max)
      case Open => r.data.Null? || r.data.Fh?
      case Read => r.data.Null? || (r.data.Bytes? && |r.data.bytes| >= Min(r.status, max))
  }

  /** Copy the first `n` source bytes over the start of `dst` (`copy_nonoverlapping`). */
  function Overwrite(dst: seq<Byte>, src: seq<Byte>, n: nat): (r: seq<Byte>)
    requires n <= |dst| && n <= |src|
    ensures |r| == |dst|
    ensures forall k :: 0 <= k < |dst| ==> r[k] == if k < n then src[k] else dst[k]
  {
    src[..n] + dst[n..]
  }

  /** The state of the `SyncCbData` after its callback ran. */
  function Deliver(cb: Cb, r: Response): Cb
    requires WellFormed(cb.callback, |cb.buffer|, r)
  {
    var done := cb.(finished := true, status := r.status);
    if r.status < 0 then done
    else
      match cb.callback
      case Generic => done
      case CopyStruct =>
        if r.data.Null? then done
        else done.(buffer := Overwrite(cb.buffer, r.data.bytes, |cb.buffer|))
      case Open => done.(ptr := if r.data.Null? then 0 else r.data.addr)
      case Read =>
        if r.data.Null? then done
        else
          var n := Min(r.status, |cb.buffer|);
          done.(buffer := Overwrite(cb.buffer, r.data.bytes, n), status := n)
  }

  /** The reply `complete` sends: status and pointer are read back after the callback. */
  function ReplyOf(cb: Cb, r: Response): Reply
    requires WellFormed(cb.callback, |cb.buffer|, r)
  {
    var done := Deliver(cb, r);
    Reply(done.status, done.ptr, done.buffer)
  }

  /** What a caller gets, field by field, for each kind of request and answer.  The status is the server's own but for a
      clamped read; the pointer is the handle of a successful open and otherwise as it was; the buffer is overwritten
      from its start by a whole struct, or by the bytes a read delivers, and otherwise as it was. */
  lemma {:induction false} ReplyIs(cb: Cb, r: Response)
    requires WellFormed(cb.callback, |cb.buffer|, r)
    ensures var reply := ReplyOf(cb, r);
      && (!(cb.callback.Read? && r.status >= 0 && !r.data.Null?) ==> reply.status == r.status)
      && (cb.callback.Open? && r.status >= 0 ==> reply.ptr == if r.data.Fh? then r.data.addr else 0)
      && (!cb.callback.Open? || r.status < 0 ==> reply.ptr == cb.ptr)
      && (cb.callback.CopyStruct? && r.status >= 0 && r.data.Bytes? ==> reply.bytes == r.data.bytes[..|cb.buffer|])
      && (cb.callback.Read? && r.status >= 0 && r.data.Bytes? ==>
            var n := if r.status <= |cb.buffer| then r.status else |cb.buffer|;
            reply.status == n && reply.bytes == r.data.bytes[..n] + cb.buffer[n..])
      && (r.status < 0 || r.data.Null? || cb.callback.Generic? || cb.callback.Open? ==> reply.bytes == cb.buffer)
  {
    if cb.callback.CopyStruct? && r.status >= 0 && r.data.Bytes? {
      assert Overwrite(cb.buffer, r.data.bytes, |cb.buffer|) == r.data.bytes[..|cb.buffer|];
    }
  }

  /** A read reports no more bytes than the caller's buffer holds exactly when the server did, or the
      callback was handed data: `read_cb` returns before clamping on a null `data`. */
  lemma {:induction false} ReadFitsBufferIff(cb: Cb, r: Response)
    requires cb.callback == Read && WellFormed(Read, |cb.buffer|, r) && r.status >= 0
    ensures ReplyOf(cb, r).status <= |cb.buffer| <==> (!r.data.Null? || r.status <= |cb.buffer|)
    ensures !r.data.Null? ==>
      var n := ReplyOf(cb, r).status;
      0 <= n <= r.status && (n == r.status || n == |cb.buffer|) && n <= |r.data.bytes| &&
      ReplyOf(cb, r).bytes[..n] == r.data.bytes[..n] &&
      ReplyOf(cb, r).bytes[n..] == cb.buffer[n..]
  {
  }

  /** The mutable `SyncCbData` together with the memory its `return_data` points to. */
  class SyncCbData {
    const callback: Callback
    const buffer: array<Byte>
    var finished: bool
    var status: int
    var ptr: nat

    constructor (callback: Callback, buffer: array<Byte>)
      ensures this.callback == callback && this.buffer == buffer
      ensures Abs() == Cb(callback, false, 0, 0, buffer[..])
    {
      this.callback, this.buffer := callback, buffer;
      finished, status, ptr := false, 0, 0;
    }

    function Abs(): Cb
      reads this, buffer
    {
      Cb(callback, finished, status, ptr, buffer[..])
    }

    /** `generic_cb` */
    method GenericCb(r: Response)
      requires callback == Generic
      modifies this, buffer
      ensures Abs() == Deliver(old(Abs()), r)
      ensures finished && status == r.status && ptr == old(ptr) && buffer[..] == old(buffer[..])
    {
      finished, status := true, r.status;
    }

    /** `copy_struct_cb` */
    method CopyStructCb(r: Response)
      requires callback == CopyStruct && WellFormed(callback, buffer.Length, r)
      modifies this, buffer
      ensures Abs() == Deliver(old(Abs()), r)
      ensures finished && status == r.status && ptr == old(ptr)
      ensures buffer[..] == if r.status >= 0 && r.data.Bytes? then r.data.bytes[..buffer.Length] else old(buffer[..])
    {
      finished, status := true, r.status;
      if r.status < 0 || r.data.Null? {
        return;
      }
      forall k | 0 <= k < buffer.Length {
        buffer[k] := r.data.bytes[k];
      }
      assert buffer[..] == Overwrite(old(buffer[..]), r.data.bytes, buffer.Length);
    }

    /** `open_cb` */
    method OpenCb(r: Response)
      requires callback == Open && WellFormed(callback, buffer.Length, r)
      modifies this, buffer
      ensures Abs() == Deliver(old(Abs()), r)
      ensures finished && status == r.status && buffer[..] == old(buffer[..])
      ensures ptr == if r.status < 0 then old(ptr) else if r.data.Fh? then r.data.addr else 0
    {
      finished, status := true, r.status;
      if r.status >= 0 {
        ptr := if r.data.Null? then 0 else r.data.addr;
      }
    }

    /** `read_cb` */
    method ReadCb(r: Response)
      requires callback == Read && WellFormed(callback, buffer.Length, r)
      modifies this, buffer
      ensures Abs() == Deliver(old(Abs()), r)
      ensures finished && ptr == old(ptr)
      ensures r.status < 0 || r.data.Null? ==> status == r.status && buffer[..] == old(buffer[..])
      ensures r.status >= 0 && r.data.Bytes? ==>
        var n := if r.status <= buffer.Length then r.status else buffer.Length;
        status == n && buffer[..] == r.data.bytes[..n] + old(buffer[..])[n..]
    {
      finished, status := true, r.status;
      if r.status < 0 || r.data.Null? {
        return;
      }
      var n := Min(r.status, buffer.Length);
      forall k | 0 <= k < n {
        buffer[k] := r.data.bytes[k];
      }
      status := n;
      assert buffer[..] == Overwrite(old(buffer[..]), r.data.bytes, n);
    }
  }
}
