/** The read buffer of a connection in src/sock.cxx: its allocation, resizing and the zeroing
    read that feeds the data callback of an actively reading socket. */
module ReadBuffer {
  import opened Common

  const DEFAULT_SIZE := 4096

  datatype Op =
    | Resize(len: nat, ok: bool)       // ok: malloc succeeded
    | Readable(received: Option<seq<Byte>>)   // what the peer has sent; None: read fails

  function Min(a: nat, b: nat): nat {
    if a < b then a else b
  }

  function Zeros(n: nat): seq<Byte> {
    seq(n, _ => 0)
  }

  /** What the callback sees: as much of the data as fits, then zeros to the end. */
  function Image(size: nat, data: seq<Byte>): seq<Byte> {
    data[..Min(|data|, size)] + Zeros(size + 1 - Min(|data|, size))
  }

  datatype Delivery = Delivery(n: nat, buffer: seq<Byte>)

  /** The deliveries of a run, given the size of the buffer in use (None: never allocated). A
      read without a buffer crashes, and an end of file closes the connection. */
  function Deliveries(size: Option<nat>, ops: seq<Op>): seq<Delivery>
    decreases |ops|
  {
    if ops == [] then [] else
    match ops[0]
    case Resize(len, ok) => Deliveries(if ok then Some(len) else size, ops[1..])
    case Readable(received) =>
      if size.None? then []
      else if received.None? then Deliveries(size, ops[1..])
      else if received.value == [] || size.value == 0 then []
      else [Delivery(Min(|received.value|, size.value), Image(size.value, received.value))]
           + Deliveries(size, ops[1..])
  }

  class Buffer {
    var bufRead: array?<Byte>
    var sizeBufread: nat

    ghost predicate Valid()
      reads this
    {
      if bufRead == null then sizeBufread == 0 else bufRead.Length == sizeBufread + 1
    }

    ghost function Size(): Option<nat>
      reads this
    {
      if bufRead == null then None else Some(sizeBufread)
    }

    constructor (ok: bool)
      ensures Valid() && Size() == (if ok then Some(DEFAULT_SIZE) else None)
      ensures bufRead != null ==> fresh(bufRead)
    {
      bufRead, sizeBufread := null, 0;
      new;
      SetLen(DEFAULT_SIZE, ok);
    }

    /** `ixfd_commonsock_set_bufread_len`. */
    method SetLen(len: nat, ok: bool)
      requires Valid() && len > 0
      modifies this
      ensures Valid() && Size() == if ok then Some(len) else old(Size())
      ensures bufRead != old(bufRead) ==> bufRead != null && fresh(bufRead)
    {
      if ok {
        bufRead := new Byte[len + 1];
        sizeBufread := len;
      }
    }

    /** The active branch of `ixfd_commonsock_read_cb` up to the callback. */
    method Fill(data: seq<Byte>) returns (n: nat)
      requires Valid() && bufRead != null
      modifies bufRead
      ensures n == Min(|data|, sizeBufread) && bufRead[..] == Image(sizeBufread, data)
    {
      for i := 0 to bufRead.Length
        invariant forall j :: 0 <= j < i ==> bufRead[j] == 0
      {
        bufRead[i] := 0;
      }
      n := Min(|data|, sizeBufread);
      for i := 0 to n
        invariant forall j :: 0 <= j < i ==> bufRead[j] == data[j]
        invariant forall j :: i <= j < bufRead.Length ==> bufRead[j] == 0
      {
        bufRead[i] := data[i];
      }
    }
  }

  /** The size of a new buffer, if it was allocated. */
  function Initial(created: bool): Option<nat> {
    if created then Some(4096) else None
  }

  /** Over any sequence of resizes and reads the callback gets exactly these deliveries: one for
      each read, in order, until the operations stop. */
  method Serve(created: bool, ops: seq<Op>) returns (out: seq<Delivery>)
    requires forall i :: 0 <= i < |ops| && ops[i].Resize? ==> ops[i].len > 0
    ensures out == Deliveries(Initial(created), ops)
    ensures forall n: nat :: StopsAt(Initial(created), ops, n) ==>
      InTurn(Initial(created), ops, n, out)
  {
    forall n: nat | StopsAt(Initial(created), ops, n)
      ensures InTurn(Initial(created), ops, n, Deliveries(Initial(created), ops))
    {
      EachReadIsDelivered(Initial(created), ops, n);
    }
    hide StopsAt, InTurn;
    out := [];
    var b := new Buffer(created);
    ghost var start := b.Size();
    for i := 0 to |ops|
      invariant b.Valid() && fresh(b) && (b.bufRead != null ==> fresh(b.bufRead))
      invariant out + Deliveries(b.Size(), ops[i..]) == Deliveries(start, ops)
    {
      assert ops[i..][1..] == ops[i + 1..];
      match ops[i] {
        case Resize(len, ok) => b.SetLen(len, ok);
        case Readable(received) =>
          if b.bufRead == null {
            return;
          }
          if received.Some? {
            var n := b.Fill(received.value);
            if n == 0 {
              return;
            }
            out := out + [Delivery(n, b.bufRead[..])];
          }
      }
    }
  }

  /** The size in force after some operations. */
  function SizeAfter(size: Option<nat>, ops: seq<Op>): Option<nat>
    decreases |ops|
  {
    if ops == [] then size
    else SizeAfter(if ops[0].Resize? && ops[0].ok then Some(ops[0].len) else size, ops[1..])
  }

  /** The delivery of a read of `data` into a buffer of the given size: the buffer has one byte
      more, the count fits, the data is at its front and every byte past the count is zero. */
  predicate DeliveredAs(d: Delivery, size: nat, data: seq<Byte>) {
    && |d.buffer| == size + 1
    && 0 < d.n <= size && d.n == Min(|data|, size)
    && d.buffer[..d.n] == data[..d.n]
    && forall j :: d.n <= j < |d.buffer| ==> d.buffer[j] == 0
  }

  /** The operations go on after this one: it is no end of file, and no read without a buffer. */
  predicate GoesOn(size: Option<nat>, op: Op) {
    op.Readable? ==> size.Some? && (op.received.Some? ==> op.received.value != [] && size.value > 0)
  }

  /** All of the first `n` operations go on. */
  ghost predicate AllGoOn(size: Option<nat>, ops: seq<Op>, n: nat)
    requires n <= |ops|
  {
    forall k :: 0 <= k < n ==> GoesOn(SizeAfter(size, ops[..k]), ops[k])
  }

  /** The first operation that does not go on is at `n`, or there is none. */
  ghost predicate StopsAt(size: Option<nat>, ops: seq<Op>, n: nat) {
    n <= |ops| && AllGoOn(size, ops, n) && (n < |ops| ==> !GoesOn(SizeAfter(size, ops[..n]), ops[n]))
  }

  /** The number of reads that got data among the operations. */
  function ReadCount(ops: seq<Op>): nat {
    if ops == [] then 0 else (if ops[0].Readable? && ops[0].received.Some? then 1 else 0) + ReadCount(ops[1..])
  }

  /** One delivery for each of the first `n` operations that is a read with data, in order. */
  ghost predicate InTurn(size: Option<nat>, ops: seq<Op>, n: nat, out: seq<Delivery>)
    requires n <= |ops|
  {
    && |out| == ReadCount(ops[..n])
    && forall k :: 0 <= k < n && ops[k].Readable? && ops[k].received.Some? ==>
         && ReadCount(ops[..k]) < |out| && SizeAfter(size, ops[..k]).Some?
         && DeliveredAs(out[ReadCount(ops[..k])], SizeAfter(size, ops[..k]).value, ops[k].received.value)
  }

  /** In every run each read is delivered, in order and with the size in force at it, up to the
      first operation that does not go on, if there is one, and nothing after it. */
  lemma {:induction false} EachReadIsDelivered(size: Option<nat>, ops: seq<Op>, n: nat)
    requires StopsAt(size, ops, n)
    ensures InTurn(size, ops, n, Deliveries(size, ops))
    decreases |ops|
  {
    if n == 0 {
      assert ops[..0] == [];
    } else {
      assert ops[..0] == [];
      assert GoesOn(size, ops[0]);
      var size' := if ops[0].Resize? && ops[0].ok then Some(ops[0].len) else size;
      forall k | 0 < k <= n ensures SizeAfter(size, ops[..k]) == SizeAfter(size', ops[1..][..k - 1]) {
        assert ops[..k][1..] == ops[1..][..k - 1];
      }
      EachReadIsDelivered(size', ops[1..], n - 1);
      InTurnCons(size, size', ops, n, Deliveries(size, ops), Deliveries(size', ops[1..]));
    }
  }

  lemma {:induction false} InTurnCons(size: Option<nat>, size': Option<nat>, ops: seq<Op>, n: nat,
                                      out: seq<Delivery>, out': seq<Delivery>)
    requires 0 < n <= |ops| && InTurn(size', ops[1..], n - 1, out')
    requires forall k :: 0 < k <= n ==> SizeAfter(size, ops[..k]) == SizeAfter(size', ops[1..][..k - 1])
    requires if ops[0].Readable? && ops[0].received.Some?
             then size.Some? && out != [] && out[1..] == out' && DeliveredAs(out[0], size.value, ops[0].received.value)
             else out == out'
    ensures InTurn(size, ops, n, out)
  {
    hide DeliveredAs;
    assert ops[..0] == [];
    forall k | 0 < k <= n
      ensures ReadCount(ops[..k])
           == (if ops[0].Readable? && ops[0].received.Some? then 1 else 0) + ReadCount(ops[1..][..k - 1])
    {
      assert ops[..k][1..] == ops[1..][..k - 1];
    }
    hide ReadCount, SizeAfter;
    forall k | 0 < k < n && ops[k].Readable? && ops[k].received.Some?
      ensures ReadCount(ops[..k]) < |out| && SizeAfter(size, ops[..k]).Some?
      ensures DeliveredAs(out[ReadCount(ops[..k])], SizeAfter(size, ops[..k]).value, ops[k].received.value)
    {
      assert ops[1..][k - 1] == ops[k];
    }
  }

  /** Each delivery, in every run, is that of some read with the size in force at it. */
  lemma {:induction false} DeliveriesAreTerminated(size: Option<nat>, ops: seq<Op>, d: Delivery)
    returns (k: nat)
    requires d in Deliveries(size, ops)
    ensures k < |ops| && ops[k].Readable? && ops[k].received.Some?
    ensures SizeAfter(size, ops[..k]).Some?
    ensures DeliveredAs(d, SizeAfter(size, ops[..k]).value, ops[k].received.value)
    decreases |ops|
  {
    var size' := if ops[0].Resize? && ops[0].ok then Some(ops[0].len) else size;
    if d in Deliveries(size', ops[1..]) {
      k := DeliveriesAreTerminated(size', ops[1..], d);
      k := k + 1;
      assert ops[..k][1..] == ops[1..][..k - 1];
    } else {
      k := 0;
    }
  }
}
