/** `ixfd_commonsock_write` and `ixfd_commonsock_write_cb` of src/sock.cxx on the heap: write
    records mutated in place, held by the linked queue, against an arbitrary kernel.  Each
    method does what WriterSpec says of its call, and `Serve` what it says of whole sessions. */
module SocketWriter {
  import opened Common
  import opened WriteModel
  import opened WriterSpec
  import CyclicQueue

  // ---------- The code ----------

  lemma {:induction false} SubmitWire(s: State, m: Message, r: int)
    requires KernelResult(r, |m.bytes|)
    ensures Raw(ApplySubmit(s, m, r).sent) == Raw(s.sent) + m.bytes[..Accepted(r)]
  {
    RawAppend(s.sent, Units(|s.submitted|, 0, m.bytes[..Accepted(r)]));
    RawUnits(|s.submitted|, 0, m.bytes[..Accepted(r)]);
  }

  lemma {:induction false} DrainWire(s: State, r: int)
    requires s.queue != [] && KernelResult(r, |s.queue[0].remain|)
    ensures Raw(ApplyDrainWrite(s, r).sent) == Raw(s.sent) + s.queue[0].remain[..Accepted(r)]
  {
    var f := s.queue[0];
    RawAppend(s.sent, Units(f.id, f.start, f.remain[..Accepted(r)]));
    RawUnits(f.id, f.start, f.remain[..Accepted(r)]);
  }

  /** `ixfd_sock_write_ctx`: `data` is an offset into the copied buffer `dataOrg`. */
  class WriteCtx {
    const dataOrg: seq<Byte>
    const cb: Callback
    ghost const id: nat
    ghost const base: nat // position of dataOrg[0] in the message
    var data: nat
    var lenRemain: nat

    constructor (cp: Bytes, cb: Callback, ghost id: nat, ghost base: nat)
      ensures dataOrg == cp && this.cb == cb && this.id == id && this.base == base
      ensures data == 0 && lenRemain == |cp|
    {
      dataOrg, this.cb, this.id, this.base := cp, cb, id, base;
      data, lenRemain := 0, |cp|;
    }

    ghost predicate Holds(r: Rec)
      reads this
    {
      && data + lenRemain == |dataOrg|
      && r.id == id && r.start == base + data && r.remain == dataOrg[data..] && r.cb == cb
    }
  }

  /** `ixfd_conn_ctx`, its write side.  `wire` is what the kernel has taken, `recs` the
      queued records and `s` the machine state that the fields stand for. */
  class ConnCtx {
    const oracle: Oracle
    const bufWrite: CyclicQueue.Queue<WriteCtx>
    var writeLaunched: bool
    var watching: bool
    var wire: seq<Byte>
    var calls: nat
    ghost var recs: seq<WriteCtx>
    ghost var own: set<WriteCtx> // every record ever made
    ghost var s: State

    /** The linked queue holds exactly the records of `s.queue`, in order. */
    ghost predicate Holding()
      reads `recs, `own, `s, bufWrite, bufWrite.nodes, recs
    {
      && bufWrite.Valid()
      && bufWrite.contents == recs
      && CyclicQueue.Distinct(recs)
      && |recs| == |s.queue|
      && (forall k :: 0 <= k < |recs| ==> recs[k] in own)
      && forall k :: 0 <= k < |recs| ==> recs[k].Holds(s.queue[k])
    }

    ghost predicate Valid()
      reads this, bufWrite, bufWrite.nodes, recs
      ensures Valid() ==> |recs| == |s.queue| && (recs != [] ==> recs[0] in own)
    {
      && Holding()
      && s.launched == writeLaunched && s.watching == watching
      && wire == Raw(s.sent)
    }

    ghost function Now(): World
      reads this
    {
      World(s, calls)
    }

    constructor (oracle: Oracle)
      ensures Valid() && Now() == World(INIT, 0) && this.oracle == oracle
      ensures fresh(bufWrite) && fresh(bufWrite.footprint) && recs == [] && own == {}
    {
      this.oracle := oracle;
      writeLaunched, watching, wire, calls := false, false, [], 0;
      recs, own, s := [], {}, INIT;
      var filler := new WriteCtx([], NoCallback, 0, 0);
      bufWrite := new CyclicQueue.Queue(filler);
    }

    /** The kernel takes a prefix of the buffer, or fails. */
    method SysWrite(bytes: seq<Byte>) returns (r: int)
      modifies `wire, `calls
      ensures r == Kernel(oracle, old(calls), |bytes|)
      ensures wire == old(wire) + bytes[..Accepted(r)] && calls == old(calls) + 1
    {
      r := Kernel(oracle, calls, |bytes|);
      wire := wire + bytes[..Accepted(r)];
      calls := calls + 1;
    }

    /** Appends a record to the queue. */
    method Push(c: WriteCtx, ghost rec: Rec, ghost s': State)
      requires Holding() && c.Holds(rec) && c !in recs && s'.queue == s.queue + [rec]
      modifies `recs, `own, `s, bufWrite, bufWrite.footprint
      ensures Holding() && recs == old(recs) + [c] && s == s' && own == old(own) + {c}
      ensures fresh(bufWrite.footprint - old(bufWrite.footprint))
    {
      hide CyclicQueue.Queue.Valid;
      bufWrite.Enqueue(c);
      recs, own := recs + [c], own + {c};
      s := s';
    }

    /** Starts the write watcher unless it is already launched. */
    method Launch()
      modifies `writeLaunched, `watching
      ensures writeLaunched && watching == (old(watching) || !old(writeLaunched))
    {
      if !writeLaunched {
        writeLaunched := true;
        watching := true;
      }
    }

    /** A record holding a copy of the last |m.bytes| - n bytes of a message. */
    static method Record(m: Message, n: nat, ghost id: nat) returns (c: WriteCtx)
      requires n < |m.bytes|
      ensures fresh(c) && c.Holds(Rec(id, n, m.bytes[n..], m.cb))
    {
      var data, len := m.bytes, |m.bytes|;
      if n > 0 {
        data := data[n..];
        len := len - n;
      }
      c := new WriteCtx(data[..len], m.cb, id, n);
    }

    /** The rest of a write that was not complete: a record of it is queued, and the write
        watcher started if it was not. */
    method Buffer(m: Message, n: nat, ghost s': State)
      requires Holding() && n < |m.bytes|
      requires s'.queue == s.queue + [Rec(|s.submitted|, n, m.bytes[n..], m.cb)]
      requires s'.launched && s'.watching == (watching || !writeLaunched) && wire == Raw(s'.sent)
      modifies `recs, `own, `s, `writeLaunched, `watching, bufWrite, bufWrite.footprint
      ensures Valid() && s == s'
      ensures fresh(bufWrite.footprint - old(bufWrite.footprint)) && fresh(own - old(own))
    {
      hide CyclicQueue.Queue.Valid;
      var ctxWrite := Record(m, n, |s.submitted|);
      Push(ctxWrite, s'.queue[|s.queue|], s');
      Launch();
    }

    /** A write that counts as complete: nothing is queued and the callback runs. */
    method Finish(m: Message, ghost s': State)
      requires Holding() && s'.queue == s.queue
      requires s'.launched == writeLaunched && s'.watching == watching && wire == Raw(s'.sent)
      modifies this, bufWrite, bufWrite.footprint
      ensures Valid()
      ensures fresh(bufWrite.footprint - old(bufWrite.footprint)) && fresh(own - old(own))
      ensures m.cb.NoCallback? ==> Now() == World(s', old(calls))
      ensures m.cb.Callback? ==> Now() == WritesSpec(oracle, World(s', old(calls)), m.cb.writes)
      decreases m, 0
    {
      s := s';
      if m.cb.Callback? {
        RunCallback(m.cb.writes);
      }
    }

    /** `ixfd_commonsock_write`. */
    method Write(m: Message) returns (done: bool)
      requires Valid()
      modifies this, bufWrite, bufWrite.footprint
      ensures Valid()
      ensures fresh(bufWrite.footprint - old(bufWrite.footprint)) && fresh(own - old(own))
      ensures Now() == WriteSpec(oracle, old(Now()), m)
      ensures done <==> Completes(Kernel(oracle, old(calls), |m.bytes|), |m.bytes|)
      decreases m, 1
    {
      hide CyclicQueue.Queue.Valid, CyclicQueue.Distinct, WritesSpec, Raw, Units, Kernel;
      var r := SysWrite(m.bytes);
      var n := SizeT(r);
      ghost var s' := ApplySubmit(s, m, r);
      SubmitWire(s, m, r);
      if n >= |m.bytes| {
        Finish(m, s');
        done := true;
      } else {
        Buffer(m, n, s');
        done := false;
      }
    }

    /** A completion callback issues its writes, in order. */
    method RunCallback(writes: seq<Message>)
      requires Valid()
      modifies this, bufWrite, bufWrite.footprint
      ensures Valid()
      ensures fresh(bufWrite.footprint - old(bufWrite.footprint)) && fresh(own - old(own))
      ensures Now() == WritesSpec(oracle, old(Now()), writes)
      decreases writes, 0
    {
      if writes != [] {
        var _ := Write(writes[0]);
        RunCallback(writes[1..]);
      }
    }

    /** Takes the front record off the queue. */
    method Pop(ghost s': State)
      requires Holding() && recs != [] && s'.queue == s.queue[1..]
      modifies `recs, `s, bufWrite, bufWrite.footprint
      ensures Holding() && recs == old(recs)[1..] && s == s'
      ensures bufWrite.footprint == old(bufWrite.footprint)
    {
      hide CyclicQueue.Queue.Valid;
      var _ := bufWrite.Dequeue();
      recs := recs[1..];
      s := s';
    }

    /** Advances the front record, where it stands, past `n` accepted bytes. */
    method Advance(ctxWrite: WriteCtx, n: nat, ghost s': State)
      requires Holding() && recs != [] && ctxWrite == recs[0] && n < ctxWrite.lenRemain
      requires s'.queue == [s.queue[0].(start := s.queue[0].start + n, remain := s.queue[0].remain[n..])] + s.queue[1..]
      modifies `s, recs[0]
      ensures Holding() && s == s'
    {
      if n > 0 {
        ctxWrite.lenRemain := ctxWrite.lenRemain - n;
        ctxWrite.data := ctxWrite.data + n;
      }
      s := s';
    }

    /** The front record is done: it leaves the queue and its callback runs. */
    method Retired(cb: Callback, ghost s': State)
      requires Holding() && recs != [] && s'.queue == s.queue[1..]
      requires s'.launched == writeLaunched && s'.watching == watching && wire == Raw(s'.sent)
      modifies this, bufWrite, bufWrite.footprint
      ensures Valid() && s.draining == s'.draining
      ensures fresh(bufWrite.footprint - old(bufWrite.footprint)) && fresh(own - old(own))
      ensures Now() == if cb.Callback? then WritesSpec(oracle, World(s', old(calls)), cb.writes)
                       else World(s', old(calls))
    {
      hide CyclicQueue.Queue.Valid, CyclicQueue.Distinct, Raw;
      Pop(s');
      if cb.Callback? {
        RunCallback(cb.writes);
      }
    }

    /** Offers the front record's bytes to the kernel. */
    method Attempt() returns (ctxWrite: WriteCtx, r: int)
      requires Valid() && recs != []
      modifies `wire, `calls
      ensures ctxWrite == recs[0] && r == Kernel(oracle, old(calls), |s.queue[0].remain|)
      ensures wire == Raw(ApplyDrainWrite(s, r).sent) && calls == old(calls) + 1
    {
      ctxWrite := bufWrite.Front();
      assert ctxWrite.Holds(s.queue[0]);
      r := SysWrite(ctxWrite.dataOrg[ctxWrite.data..ctxWrite.data + ctxWrite.lenRemain]);
      DrainWire(s, r);
    }

    /** One turn of the drain loop. */
    method Turn()
      requires Valid() && s.draining && recs != []
      modifies this, bufWrite, bufWrite.footprint, recs[0]
      ensures Valid() && s.draining
      ensures fresh(bufWrite.footprint - old(bufWrite.footprint)) && fresh(own - old(own))
      ensures Now() == TurnSpec(oracle, old(Now()))
    {
      hide CyclicQueue.Queue.Valid, CyclicQueue.Distinct, WritesSpec, Raw, Units, Kernel;
      var ctxWrite, r := Attempt();
      var n := SizeT(r);
      ghost var s' := ApplyDrainWrite(s, r);
      if n >= ctxWrite.lenRemain {
        Retired(ctxWrite.cb, s');
      } else {
        Advance(ctxWrite, n, s');
      }
    }

    ghost method Begin()
      requires Valid() && watching && !s.draining
      modifies `s
      ensures Valid() && s == old(s).(draining := true)
    {
      s := s.(draining := true);
    }

    /** The way out of the write callback. */
    method Retire()
      requires Valid() && s.draining && recs == []
      modifies `s, `writeLaunched, `watching
      ensures Valid() && s == Settle(old(s))
    {
      writeLaunched := false;
      watching := false;
      s := Settle(s);
    }

    /** The test of the drain loop. */
    method Drained() returns (empty: bool)
      requires Valid()
      ensures empty <==> recs == []
    {
      empty := bufWrite.Empty();
    }

    /** The drain loop, observed for at most `turns` turns: it is left when the queue is empty. */
    method DrainLoop(turns: nat) returns (empty: bool)
      requires Valid() && s.draining
      modifies this, bufWrite, bufWrite.footprint, own
      ensures Valid() && s.draining
      ensures fresh(bufWrite.footprint - old(bufWrite.footprint)) && fresh(own - old(own))
      ensures Now() == DrainSpec(oracle, old(Now()), turns) && (empty <==> recs == [])
    {
      hide CyclicQueue.Queue.Valid, Valid, Holding, TurnSpec;
      var k := 0;
      empty := Drained();
      while !empty && k < turns
        invariant Valid() && s.draining && k <= turns
        invariant empty <==> recs == []
        invariant fresh(bufWrite.footprint - old(bufWrite.footprint)) && fresh(own - old(own))
        invariant DrainSpec(oracle, old(Now()), turns) == DrainSpec(oracle, Now(), turns - k)
      {
        Turn();
        k := k + 1;
        empty := Drained();
      }
    }

    /** `ixfd_commonsock_write_cb`, observed for at most `turns` turns of its loop: it
        returns exactly when the queue is empty. */
    method WriteCb(turns: nat) returns (returned: bool)
      requires Valid() && watching && !s.draining
      modifies this, bufWrite, bufWrite.footprint, own
      ensures Valid()
      ensures fresh(bufWrite.footprint - old(bufWrite.footprint)) && fresh(own - old(own))
      ensures var w := DrainSpec(oracle, World(old(s).(draining := true), old(calls)), turns);
        Now() == World(Settle(w.s), w.t) && (returned <==> w.s.queue == [])
    {
      hide CyclicQueue.Queue.Valid, TurnSpec, Raw;
      Begin();
      returned := DrainLoop(turns);
      if returned {
        Retire();
      }
    }
  }

  // ---------- Whole sessions ----------

  /** The code over a whole session: the bytes given to the kernel are the machine's, with all
      that is known of them.  What is submitted is what the program and its callbacks write. */
  method Serve(o: Oracle, events: seq<Event>) returns (wire: seq<Byte>, launched: bool, returned: bool)
    ensures var s := SessionSpec(o, World(INIT, 0), events).s;
      && wire == Raw(s.sent) && launched == s.launched && returned == !s.draining
      && Inv(s) && RanOnce(s) && RanInOrder(s) && RanAfterBytes(s)
      && (forall i :: 0 <= i < |s.submitted| ==> Conserved(s, i))
      && (InOrder(s) <==> OrderlySession(o, events))
      && (s.lost == [] <==> LosslessSession(o, events))
      && (NeverFails(o) ==> s.lost == [])
      && (OrderlySession(o, events) ==> wire + Raw(Pending(s.queue)) == Concat(s.submitted))
    ensures var s := SessionSpec(o, World(INIT, 0), events).s; var k := Served(o, World(INIT, 0), events);
      && Issues(INIT, AppMessages(events[..k]), s) && (returned ==> k == |events|)
      && (returned && Silent(AppMessages(events)) ==> s.submitted == AppMessages(events))
      && (Prompt(o, events) ==> AllDelivered(s))
      && (Prompt(o, events) && OrderlySession(o, events) && Silent(AppMessages(events)) ==>
            wire == Concat(AppMessages(events)))
  {
    hide SessionSpec, OrderlySession, LosslessSession, InOrder, Served, Issues, Silent, Prompt, AllDelivered;
    var c := new ConnCtx(o);
    returned := Session(c, events);
    wire, launched := c.wire, c.writeLaunched;
    SessionGuarantees(o, events);
    if OrderlySession(o, events) {
      OrderlySessionStream(o, events);
    }
    SessionIssues(o, World(INIT, 0), events);
    if Silent(AppMessages(events)) {
      SilentSession(o, events);
    }
    if Prompt(o, events) {
      PromptDelivers(o, events);
      DeliveredIdle(SessionSpec(o, World(INIT, 0), events).s, wire);
    }
  }

  method Session(c: ConnCtx, events: seq<Event>) returns (returned: bool)
    requires c.Valid() && !c.s.draining
    modifies c, c.bufWrite, c.bufWrite.footprint, c.own
    ensures c.Valid() && c.Now() == SessionSpec(c.oracle, old(c.Now()), events) && (returned <==> !c.s.draining)
  {
    hide CyclicQueue.Queue.Valid, EventSpec;
    var i := 0;
    returned := true;
    while i < |events| && returned
      invariant 0 <= i <= |events| && c.Valid() && (returned <==> !c.s.draining)
      invariant fresh(c.bufWrite.footprint - old(c.bufWrite.footprint)) && fresh(c.own - old(c.own))
      invariant SessionSpec(c.oracle, old(c.Now()), events) == SessionSpec(c.oracle, c.Now(), events[i..])
    {
      assert events[i..][1..] == events[i + 1..];
      returned := Handle(c, events[i]);
      i := i + 1;
    }
  }

  method Handle(c: ConnCtx, ev: Event) returns (returned: bool)
    requires c.Valid() && !c.s.draining
    modifies c, c.bufWrite, c.bufWrite.footprint, c.own
    ensures c.Valid() && c.Now() == EventSpec(c.oracle, old(c.Now()), ev) && (returned <==> !c.s.draining)
    ensures fresh(c.bufWrite.footprint - old(c.bufWrite.footprint)) && fresh(c.own - old(c.own))
  {
    hide CyclicQueue.Queue.Valid, WriteSpec;
    returned := true;
    match ev {
      case AppWrite(m) => var _ := c.Write(m);
      case Writable(turns) =>
        if c.watching {
          DrainSpecIsRun(c.oracle, World(c.s.(draining := true), c.calls), turns);
          returned := c.WriteCb(turns);
        }
    }
  }
}
