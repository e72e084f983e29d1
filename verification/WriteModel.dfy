/** The buffered socket writer of src/sock.cxx as a state machine over values.

    Every submitted byte is a `Unit` tagged with its message and its position, so that
    two equal bytes of different origin stay apart.  `sent` is what the kernel accepted,
    in order; `lost` is what the code gave up on. */
module WriteModel {
  import opened Common

  const SIZE_T: nat := 0x1_0000_0000_0000_0000

  /** A buffer whose length is a `size_t`. */
  type Bytes = s: seq<Byte> | |s| < SIZE_T witness []

  /** A completion callback, and the writes it issues when it runs. */
  datatype Callback = NoCallback | Callback(writes: seq<Message>)
  datatype Message = Message(bytes: Bytes, cb: Callback)

  datatype Unit = Unit(id: nat, pos: nat, byte: Byte)

  /** A queued record: `remain` starts at position `start` of message `id`. */
  datatype Rec = Rec(id: nat, start: nat, remain: Bytes, cb: Callback)

  datatype State = State(
    submitted: seq<Message>, // every call of write so far; a message is known by its index
    sent: seq<Unit>,
    lost: seq<Unit>,
    enq: seq<nat>,           // messages ever queued, in order
    deq: seq<nat>,           // messages ever taken off the queue, in order
    ran: seq<nat>,           // completion callbacks run, in order
    queue: seq<Rec>,
    launched: bool,          // write_launched
    watching: bool,          // the write watcher is started
    draining: bool           // control is inside the write callback
  )

  datatype Step =
    | Submit(msg: Message, r: int) // a call of write whose direct attempt returns r
    | DrainBegin                   // the write watcher fires
    | DrainWrite(r: int)           // one turn of the drain loop
    | DrainEnd                     // the drain loop is left

  // ---------- Transitions ----------

  /** What `write` may return for a buffer of `len` bytes. */
  predicate KernelResult(r: int, len: nat) {
    r == -1 || 0 <= r <= len
  }

  /** The conversion of the `ssize_t` result to the `size_t` it is stored in. */
  function SizeT(r: int): nat
    requires r >= -1
  {
    if r < 0 then r + SIZE_T else r
  }

  predicate Completes(r: int, len: nat)
    requires r >= -1
  {
    SizeT(r) >= len
  }

  function Accepted(r: int): nat
    requires r >= -1
  {
    if r < 0 then 0 else r
  }

  function Units(id: nat, start: nat, bytes: seq<Byte>): seq<Unit> {
    seq(|bytes|, k requires 0 <= k < |bytes| => Unit(id, start + k, bytes[k]))
  }

  function CbRun(id: nat, cb: Callback): seq<nat> {
    if cb.NoCallback? then [] else [id]
  }

  predicate Enabled(s: State, step: Step) {
    match step
    case Submit(m, r) => KernelResult(r, |m.bytes|)
    case DrainBegin => s.watching && !s.draining
    case DrainWrite(r) => s.draining && s.queue != [] && KernelResult(r, |s.queue[0].remain|)
    case DrainEnd => s.draining && s.queue == []
  }

  function ApplySubmit(s: State, m: Message, r: int): State
    requires KernelResult(r, |m.bytes|)
  {
    var id, n := |s.submitted|, Accepted(r);
    var rest: Bytes := m.bytes[n..];
    var s1 := s.(submitted := s.submitted + [m], sent := s.sent + Units(id, 0, m.bytes[..n]));
    if Completes(r, |m.bytes|) then
      s1.(lost := s.lost + Units(id, n, rest), ran := s.ran + CbRun(id, m.cb))
    else
      s1.(enq := s.enq + [id], queue := s.queue + [Rec(id, n, rest, m.cb)],
          launched := true, watching := s.watching || !s.launched)
  }

  function ApplyDrainWrite(s: State, r: int): State
    requires s.queue != [] && KernelResult(r, |s.queue[0].remain|)
  {
    var f, n := s.queue[0], Accepted(r);
    var rest: Bytes := f.remain[n..];
    var s1 := s.(sent := s.sent + Units(f.id, f.start, f.remain[..n]));
    if Completes(r, |f.remain|) then
      s1.(lost := s.lost + Units(f.id, f.start + n, rest), deq := s.deq + [f.id],
          ran := s.ran + CbRun(f.id, f.cb), queue := s.queue[1..])
    else
      s1.(queue := [f.(start := f.start + n, remain := rest)] + s.queue[1..])
  }

  function Apply(s: State, step: Step): State
    requires Enabled(s, step)
  {
    match step
    case Submit(m, r) => ApplySubmit(s, m, r)
    case DrainBegin => s.(draining := true)
    case DrainWrite(r) => ApplyDrainWrite(s, r)
    case DrainEnd => s.(launched := false, watching := false, draining := false)
  }

  /** A connection context as created: nothing submitted, watcher stopped. */
  const INIT := State([], [], [], [], [], [], [], false, false, false)

  ghost predicate IsRun(s: State, steps: seq<Step>)
    decreases |steps|
  {
    steps == [] || (Enabled(s, steps[0]) && IsRun(Apply(s, steps[0]), steps[1..]))
  }

  ghost function Exec(s: State, steps: seq<Step>): State
    requires IsRun(s, steps)
    decreases |steps|
  {
    if steps == [] then s else Exec(Apply(s, steps[0]), steps[1..])
  }

  // ---------- Views ----------

  /** The bytes of all messages in submission order. */
  ghost function All(ms: seq<Message>): seq<Unit> {
    if ms == [] then [] else
      All(ms[..|ms| - 1]) + Units(|ms| - 1, 0, ms[|ms| - 1].bytes)
  }

  /** The bytes still queued, front record first. */
  ghost function Pending(q: seq<Rec>): seq<Unit> {
    if q == [] then [] else Units(q[0].id, q[0].start, q[0].remain) + Pending(q[1..])
  }

  /** The units of one message, in order. */
  ghost function Of(us: seq<Unit>, id: nat): seq<Unit> {
    if us == [] then [] else (if us[0].id == id then [us[0]] else []) + Of(us[1..], id)
  }

  ghost function Raw(us: seq<Unit>): seq<Byte> {
    seq(|us|, k requires 0 <= k < |us| => us[k].byte)
  }

  ghost function Ids(q: seq<Rec>): (ids: seq<nat>) {
    seq(|q|, k requires 0 <= k < |q| => q[k].id)
  }

  lemma {:induction false} PendingAppend(q: seq<Rec>, r: Rec)
    ensures Pending(q + [r]) == Pending(q) + Units(r.id, r.start, r.remain)
  {
    if q == [] {
      assert [r][1..] == [];
    } else {
      PendingAppend(q[1..], r);
      assert (q + [r])[1..] == q[1..] + [r];
    }
  }

  lemma {:induction false} AllAppend(ms: seq<Message>, m: Message)
    ensures All(ms + [m]) == All(ms) + Units(|ms|, 0, m.bytes)
  {
    assert (ms + [m])[..|ms|] == ms;
  }

  lemma {:induction false} OfAppend(a: seq<Unit>, b: seq<Unit>, id: nat)
    ensures Of(a + b, id) == Of(a, id) + Of(b, id)
  {
    if a == [] {
      assert a + b == b;
    } else {
      OfAppend(a[1..], b, id);
      assert (a + b)[0] == a[0] && (a + b)[1..] == a[1..] + b;
      Assoc(if a[0].id == id then [a[0]] else [], Of(a[1..], id), Of(b, id));
    }
  }

  lemma {:induction false} OfSame(us: seq<Unit>, id: nat)
    requires forall u :: u in us ==> u.id == id
    ensures Of(us, id) == us
  {
    if us != [] {
      OfSame(us[1..], id);
    }
  }

  lemma {:induction false} OfNone(us: seq<Unit>, id: nat)
    requires forall u :: u in us ==> u.id != id
    ensures Of(us, id) == []
  {
    if us != [] {
      OfNone(us[1..], id);
    }
  }

  lemma {:induction false} UnitsSplit(id: nat, start: nat, bytes: seq<Byte>, n: nat)
    requires n <= |bytes|
    ensures Units(id, start, bytes) == Units(id, start, bytes[..n]) + Units(id, start + n, bytes[n..])
  {
  }

  // ---------- The inductive invariant ----------

  ghost predicate Increasing(s: seq<nat>) {
    forall i, j :: 0 <= i < j < |s| ==> s[i] < s[j]
  }

  ghost predicate Below(us: seq<Unit>, n: nat) {
    forall u :: u in us ==> u.id < n
  }

  /** Records have something left to send, are in submission order, and carry their own
      message's callback. */
  ghost predicate GoodQueue(q: seq<Rec>, ms: seq<Message>) {
    && Increasing(Ids(q))
    && forall r :: r in q ==> |r.remain| > 0 && r.id < |ms| && r.cb == ms[r.id].cb
  }

  ghost predicate Inv(s: State) {
    && GoodQueue(s.queue, s.submitted)
    && Below(s.sent, |s.submitted|) && Below(s.lost, |s.submitted|)
    && (forall r, u :: r in s.queue && u in s.lost ==> u.id != r.id)
    && (s.draining ==> s.launched && s.watching)
    && (!s.draining ==> (s.launched <==> s.queue != []) && (s.watching <==> s.queue != []))
  }

  lemma {:induction false} IncreasingAppend(s: seq<nat>, x: nat)
    requires Increasing(s) && forall y :: y in s ==> y < x
    ensures Increasing(s + [x])
  {
    assert forall i :: 0 <= i < |s| ==> s[i] in s;
  }

  lemma {:induction false} QueueAppend(q: seq<Rec>, ms: seq<Message>, m: Message, rec: Rec)
    requires GoodQueue(q, ms)
    requires rec.id == |ms| && rec.cb == m.cb && |rec.remain| > 0
    ensures GoodQueue(q + [rec], ms + [m])
    ensures Ids(q + [rec]) == Ids(q) + [rec.id]
  {
    forall k | 0 <= k < |q| ensures Ids(q)[k] < rec.id {
      assert q[k] in q;
    }
    assert Ids(q + [rec]) == Ids(q) + [rec.id];
    IncreasingAppend(Ids(q), rec.id);
    forall x | x in q + [rec] ensures |x.remain| > 0 && x.id < |ms + [m]| && x.cb == (ms + [m])[x.id].cb {
      assert x in q || x == rec;
    }
  }

  lemma {:induction false} InvSubmit(s: State, m: Message, r: int)
    requires Inv(s) && KernelResult(r, |m.bytes|)
    ensures Inv(ApplySubmit(s, m, r))
  {
    var s', n := ApplySubmit(s, m, r), Accepted(r);
    assert forall u :: u in s'.sent ==> u in s.sent || u.id == |s.submitted|;
    if Completes(r, |m.bytes|) {
      assert forall u :: u in s'.lost ==> u in s.lost || u.id == |s.submitted|;
    } else {
      QueueAppend(s.queue, s.submitted, m, Rec(|s.submitted|, n, m.bytes[n..], m.cb));
    }
  }

  /** The rest of the queue is younger than its front. */
  lemma {:induction false} TailIds(q: seq<Rec>, ms: seq<Message>)
    requires GoodQueue(q, ms) && q != []
    ensures forall x :: x in q[1..] ==> x.id > q[0].id
    ensures Ids(q) == [q[0].id] + Ids(q[1..]) && q[0].id !in Ids(q[1..])
    ensures GoodQueue(q[1..], ms) && q[0] in q
  {
    forall x | x in q[1..] ensures x.id > q[0].id {
      var k :| 1 <= k < |q| && q[k] == x;
      assert Ids(q)[0] < Ids(q)[k];
    }
    forall k | 0 <= k < |q| - 1 ensures Ids(q[1..])[k] == Ids(q)[k + 1] && Ids(q)[0] < Ids(q)[k + 1] {
    }
  }

  lemma {:induction false} InvDrain(s: State, r: int)
    requires Inv(s) && s.draining && s.queue != [] && KernelResult(r, |s.queue[0].remain|)
    ensures Inv(ApplyDrainWrite(s, r))
  {
    var s', f := ApplyDrainWrite(s, r), s.queue[0];
    TailIds(s.queue, s.submitted);
    assert forall u :: u in s'.sent ==> u in s.sent || u.id == f.id;
    assert forall u :: u in s'.lost ==> u in s.lost || u.id == f.id;
    if !Completes(r, |f.remain|) {
      assert Ids(s'.queue) == Ids(s.queue);
      assert forall x :: x in s'.queue ==> x == s'.queue[0] || x in s.queue[1..];
    }
  }

  lemma {:induction false} InvStep(s: State, step: Step)
    requires Inv(s) && Enabled(s, step)
    ensures Inv(Apply(s, step))
  {
    match step {
      case Submit(m, r) => InvSubmit(s, m, r);
      case DrainWrite(r) => InvDrain(s, r);
      case _ =>
    }
  }

  lemma {:induction false} RunInv(s: State, steps: seq<Step>)
    requires Inv(s) && IsRun(s, steps)
    ensures Inv(Exec(s, steps))
    decreases |steps|
  {
    if steps != [] {
      InvStep(s, steps[0]);
      RunInv(Apply(s, steps[0]), steps[1..]);
    }
  }

  // ---------- 1. Conservation, message by message ----------

  /** Message `i` is what the kernel took of it, then what is queued of it, then what was
      dropped of it. */
  ghost predicate Conserved(s: State, i: nat)
    requires i < |s.submitted|
  {
    Of(s.sent, i) + Of(Pending(s.queue), i) + Of(s.lost, i) == Units(i, 0, s.submitted[i].bytes)
  }

  lemma {:induction false} PendingIds(q: seq<Rec>, u: Unit)
    requires u in Pending(q)
    ensures exists r :: r in q && r.id == u.id
  {
    if u in Units(q[0].id, q[0].start, q[0].remain) {
      assert q[0] in q;
    } else {
      PendingIds(q[1..], u);
      var r :| r in q[1..] && r.id == u.id;
      assert r in q;
    }
  }

  /** Nothing of message `i` is queued unless a record of it is. */
  lemma {:induction false} PendingNone(q: seq<Rec>, i: nat)
    requires forall r :: r in q ==> r.id != i
    ensures Of(Pending(q), i) == []
  {
    forall u | u in Pending(q) ensures u.id != i {
      PendingIds(q, u);
    }
    OfNone(Pending(q), i);
  }

  /** A direct write appends to the wire and to the stream of all submitted bytes; what was
      not accepted is dropped if the call counts as complete and queued otherwise. */
  lemma {:induction false} SubmitShape(s: State, m: Message, r: int, head: seq<Unit>, rest: seq<Unit>)
    requires KernelResult(r, |m.bytes|)
    requires head == Units(|s.submitted|, 0, m.bytes[..Accepted(r)])
    requires rest == Units(|s.submitted|, Accepted(r), m.bytes[Accepted(r)..])
    ensures var s' := ApplySubmit(s, m, r);
      && s'.sent == s.sent + head
      && head + rest == Units(|s.submitted|, 0, m.bytes)
      && All(s'.submitted) == All(s.submitted) + (head + rest)
      && (if Completes(r, |m.bytes|)
          then Pending(s'.queue) == Pending(s.queue) && s'.lost == s.lost + rest
          else Pending(s'.queue) == Pending(s.queue) + rest && s'.lost == s.lost)
  {
    AllAppend(s.submitted, m);
    UnitsSplit(|s.submitted|, 0, m.bytes, Accepted(r));
    PendingAppend(s.queue, Rec(|s.submitted|, Accepted(r), m.bytes[Accepted(r)..], m.cb));
  }

  /** A turn of the drain moves bytes from the head of the queue to the wire; what was not
      accepted is dropped if the call counts as complete and stays at the head otherwise. */
  lemma {:induction false} DrainShape(s: State, r: int, head: seq<Unit>, rest: seq<Unit>)
    requires s.queue != [] && KernelResult(r, |s.queue[0].remain|)
    requires head == Units(s.queue[0].id, s.queue[0].start, s.queue[0].remain[..Accepted(r)])
    requires rest == Units(s.queue[0].id, s.queue[0].start + Accepted(r), s.queue[0].remain[Accepted(r)..])
    ensures var s' := ApplyDrainWrite(s, r); var tail := Pending(s.queue[1..]);
      && s'.sent == s.sent + head && s'.submitted == s.submitted
      && Pending(s.queue) == head + (rest + tail)
      && (if Completes(r, |s.queue[0].remain|)
          then Pending(s'.queue) == tail && s'.lost == s.lost + rest
          else Pending(s'.queue) == rest + tail && s'.lost == s.lost)
  {
    UnitsSplit(s.queue[0].id, s.queue[0].start, s.queue[0].remain, Accepted(r));
    hide Units;
    Assoc(head, rest, Pending(s.queue[1..]));
    var q' := ApplyDrainWrite(s, r).queue;
    if !Completes(r, |s.queue[0].remain|) {
      assert q'[1..] == s.queue[1..];
    }
  }

  lemma {:induction false} Assoc<A>(a: seq<A>, b: seq<A>, c: seq<A>)
    ensures a + (b + c) == a + b + c
  {
  }

  lemma {:induction false} Swap<A>(r: seq<A>, t: seq<A>, l: seq<A>)
    requires r == [] || (t == [] && l == [])
    ensures r + t + l == t + (l + r)
  {
  }

  lemma {:induction false} Gather<A>(a: seq<A>, b: seq<A>, c: seq<A>, h: seq<A>, r: seq<A>)
    requires (h == [] && r == []) || (a == [] && b == [] && c == [])
    ensures a + h + b + (c + r) == a + b + c + (h + r)
    ensures a + h + (b + r) + c == a + b + c + (h + r)
    ensures a + b + c + (h + r) == if h == [] && r == [] then a + b + c else h + r
  {
    if h == [] && r == [] {
      assert a + h == a && b + r == b && c + r == c;
    } else {
      assert a + b + c + (h + r) == h + r;
    }
  }

  /** Adding `head` to the wire and `rest` to the end of the queue, or to the lost bytes. */
  lemma {:induction false} OfAdd(
      sent: seq<Unit>, p: seq<Unit>, lost: seq<Unit>, head: seq<Unit>, rest: seq<Unit>, i: nat)
    requires (Of(head, i) == [] && Of(rest, i) == []) || (Of(sent, i) == [] && Of(p, i) == [] && Of(lost, i) == [])
    ensures var after := if Of(head, i) == [] && Of(rest, i) == []
                         then Of(sent, i) + Of(p, i) + Of(lost, i) else Of(head, i) + Of(rest, i);
      && after == Of(sent + head, i) + Of(p, i) + Of(lost + rest, i)
      && after == Of(sent + head, i) + Of(p + rest, i) + Of(lost, i)
  {
    OfAppend(sent, head, i);
    OfAppend(p, rest, i);
    OfAppend(lost, rest, i);
    Gather(Of(sent, i), Of(p, i), Of(lost, i), Of(head, i), Of(rest, i));
  }

  lemma {:induction false} UnitsOf(id: nat, start: nat, bytes: seq<Byte>, i: nat)
    ensures Of(Units(id, start, bytes), i) == if i == id then Units(id, start, bytes) else []
  {
    if i == id {
      OfSame(Units(id, start, bytes), i);
    } else {
      OfNone(Units(id, start, bytes), i);
    }
  }

  /** Nothing is known yet of a message that has not been submitted. */
  lemma {:induction false} UnseenMessage(s: State)
    requires Inv(s)
    ensures var id := |s.submitted|; Of(s.sent, id) == [] && Of(Pending(s.queue), id) == [] && Of(s.lost, id) == []
  {
    OfNone(s.sent, |s.submitted|);
    OfNone(s.lost, |s.submitted|);
    PendingNone(s.queue, |s.submitted|);
  }

  lemma {:induction false} ConservedSubmit(s: State, m: Message, r: int, i: nat)
    requires Inv(s) && KernelResult(r, |m.bytes|) && i <= |s.submitted|
    requires i < |s.submitted| ==> Conserved(s, i)
    ensures Conserved(ApplySubmit(s, m, r), i)
  {
    hide Of, Pending, All;
    var id, n := |s.submitted|, Accepted(r);
    var head, rest := Units(id, 0, m.bytes[..n]), Units(id, n, m.bytes[n..]);
    assert Of(head, i) == (if i == id then head else []) by { UnitsOf(id, 0, m.bytes[..n], i); }
    assert Of(rest, i) == (if i == id then rest else []) by { UnitsOf(id, n, m.bytes[n..], i); }
    SubmitShape(s, m, r, head, rest);
    UnseenMessage(s);
    OfAdd(s.sent, Pending(s.queue), s.lost, head, rest, i);
    var s' := ApplySubmit(s, m, r);
    if i < id {
      assert s'.submitted[i] == s.submitted[i];
    } else {
      assert s'.submitted[i] == m;
    }
  }

  /** Moving `head` from the front of the queue to the wire, and `rest` to the lost bytes. */
  lemma {:induction false} OfMove(
      sent: seq<Unit>, head: seq<Unit>, rest: seq<Unit>, tail: seq<Unit>, lost: seq<Unit>, i: nat)
    requires Of(rest, i) == [] || (Of(tail, i) == [] && Of(lost, i) == [])
    ensures var before := Of(sent, i) + Of(head + (rest + tail), i) + Of(lost, i);
      && before == Of(sent + head, i) + Of(rest + tail, i) + Of(lost, i)
      && before == Of(sent + head, i) + Of(tail, i) + Of(lost + rest, i)
  {
    OfAppend(head, rest + tail, i);
    OfAppend(sent, head, i);
    OfAppend(rest, tail, i);
    OfAppend(lost, rest, i);
    Assoc(Of(sent, i), Of(head, i), Of(rest + tail, i));
    Assoc(Of(sent + head, i), Of(rest + tail, i), Of(lost, i));
    Swap(Of(rest, i), Of(tail, i), Of(lost, i));
    Assoc(Of(sent + head, i), Of(tail, i), Of(lost + rest, i));
  }

  lemma {:induction false} ConservedDrain(s: State, r: int, i: nat)
    requires Inv(s) && s.queue != [] && KernelResult(r, |s.queue[0].remain|) && i < |s.submitted|
    requires Conserved(s, i)
    ensures Conserved(ApplyDrainWrite(s, r), i)
  {
    hide Of, Pending;
    var f, n := s.queue[0], Accepted(r);
    var head, rest := Units(f.id, f.start, f.remain[..n]), Units(f.id, f.start + n, f.remain[n..]);
    DrainShape(s, r, head, rest);
    TailIds(s.queue, s.submitted);
    if i == f.id {
      PendingNone(s.queue[1..], i);
      OfNone(s.lost, i);
    }
    UnitsOf(f.id, f.start + n, f.remain[n..], i);
    OfMove(s.sent, head, rest, Pending(s.queue[1..]), s.lost, i);
  }

  lemma {:induction false} ConservedStep(s: State, step: Step, i: nat)
    requires Inv(s) && Enabled(s, step) && i < |Apply(s, step).submitted|
    requires i < |s.submitted| ==> Conserved(s, i)
    ensures Conserved(Apply(s, step), i)
  {
    match step {
      case Submit(m, r) => ConservedSubmit(s, m, r, i);
      case DrainWrite(r) => ConservedDrain(s, r, i);
      case DrainBegin => assert Conserved(s, i);
      case DrainEnd => assert Conserved(s, i);
    }
  }

  /** Under every schedule of short writes and errors, and with no condition on ordering,
      each byte of each message is in exactly one place and in its own order. */
  lemma {:induction false} RunConserves(s: State, steps: seq<Step>)
    requires Inv(s) && IsRun(s, steps)
    requires forall i :: 0 <= i < |s.submitted| ==> Conserved(s, i)
    ensures forall i :: 0 <= i < |Exec(s, steps).submitted| ==> Conserved(Exec(s, steps), i)
    decreases |steps|
  {
    if steps != [] {
      var s' := Apply(s, steps[0]);
      InvStep(s, steps[0]);
      forall i | 0 <= i < |s'.submitted| ensures Conserved(s', i) {
        ConservedStep(s, steps[0], i);
      }
      RunConserves(s', steps[1..]);
    }
  }

  lemma {:induction false} RawAppend(a: seq<Unit>, b: seq<Unit>)
    ensures Raw(a + b) == Raw(a) + Raw(b)
  {
  }

  lemma {:induction false} RawUnits(id: nat, start: nat, bytes: seq<Byte>)
    ensures Raw(Units(id, start, bytes)) == bytes
  {
  }

  /** The same, in plain bytes, for every run of a new connection. */
  lemma {:induction false} EveryByteAccountedFor(steps: seq<Step>, i: nat)
    requires IsRun(INIT, steps) && i < |Exec(INIT, steps).submitted|
    ensures var s := Exec(INIT, steps);
      Raw(Of(s.sent, i)) + Raw(Of(Pending(s.queue), i)) + Raw(Of(s.lost, i)) == s.submitted[i].bytes
  {
    RunConserves(INIT, steps);
    var s := Exec(INIT, steps);
    assert Conserved(s, i);
    RawAppend(Of(s.sent, i) + Of(Pending(s.queue), i), Of(s.lost, i));
    RawAppend(Of(s.sent, i), Of(Pending(s.queue), i));
    RawUnits(i, 0, s.submitted[i].bytes);
  }

  /** An attempt that does not fail on a non-empty buffer. */
  predicate Lossless(s: State, step: Step)
    requires Enabled(s, step)
  {
    match step
    case Submit(m, r) => r < 0 ==> m.bytes == []
    case DrainWrite(r) => r >= 0
    case _ => true
  }

  ghost predicate LosslessRun(s: State, steps: seq<Step>)
    requires IsRun(s, steps)
    decreases |steps|
  {
    steps == [] || (Lossless(s, steps[0]) && LosslessRun(Apply(s, steps[0]), steps[1..]))
  }

  lemma {:induction false} LossStep(s: State, step: Step)
    requires Inv(s) && Enabled(s, step)
    ensures Apply(s, step).lost == [] <==> s.lost == [] && Lossless(s, step)
  {
    if step.DrainWrite? {
      assert s.queue[0] in s.queue;
    }
  }

  /** In every run bytes are dropped exactly when some attempt on a non-empty buffer fails. */
  lemma {:induction false} LossIffError(s: State, steps: seq<Step>)
    requires Inv(s) && IsRun(s, steps)
    ensures Exec(s, steps).lost == [] <==> s.lost == [] && LosslessRun(s, steps)
    decreases |steps|
  {
    if steps != [] {
      InvStep(s, steps[0]);
      LossStep(s, steps[0]);
      LossIffError(Apply(s, steps[0]), steps[1..]);
    }
  }

  /** The bytes that the kernel says it took, over some steps. */
  function Taken(steps: seq<Step>): nat {
    if steps == [] then 0
    else (if (steps[0].Submit? || steps[0].DrainWrite?) && steps[0].r > 0 then steps[0].r else 0) + Taken(steps[1..])
  }

  /** In every run the wire grows by exactly what the kernel says it took, at
      its end. */
  lemma {:induction false} WireGrows(s: State, steps: seq<Step>)
    requires IsRun(s, steps)
    ensures |Exec(s, steps).sent| == |s.sent| + Taken(steps) && s.sent <= Exec(s, steps).sent
    decreases |steps|
  {
    if steps != [] {
      WireGrows(Apply(s, steps[0]), steps[1..]);
    }
  }

  // ---------- 2. Order on the wire ----------

  /** The caller-visible condition on one write attempt: no error on a non-empty buffer, and
      no byte of a direct attempt accepted past a waiting record. */
  predicate Orderly(s: State, step: Step)
    requires Enabled(s, step)
  {
    match step
    case Submit(m, r) => (r < 0 ==> m.bytes == []) && (r > 0 ==> s.queue == [])
    case DrainWrite(r) => r >= 0
    case _ => true
  }

  ghost predicate OrderlyRun(s: State, steps: seq<Step>)
    requires IsRun(s, steps)
    decreases |steps|
  {
    steps == [] || (Orderly(s, steps[0]) && OrderlyRun(Apply(s, steps[0]), steps[1..]))
  }

  ghost predicate InOrder(s: State) {
    s.sent + Pending(s.queue) == All(s.submitted)
  }

  /** Something was dropped, or the wire carries a byte out of turn. */
  ghost predicate Broken(s: State) {
    && |s.sent| + |Pending(s.queue)| + |s.lost| == |All(s.submitted)|
    && (s.lost != [] || exists k :: OutOfTurn(s, k))
  }

  ghost predicate OutOfTurn(s: State, k: nat) {
    k < |s.sent| && k < |All(s.submitted)| && s.sent[k] != All(s.submitted)[k]
  }

  lemma {:induction false} BrokenIsNotInOrder(s: State)
    requires Broken(s)
    ensures !InOrder(s)
  {
    if s.lost == [] {
      var k: nat :| OutOfTurn(s, k);
      assert (s.sent + Pending(s.queue))[k] == s.sent[k];
    }
  }

  lemma {:induction false} BrokenStays(s: State, step: Step)
    requires Broken(s) && Enabled(s, step)
    ensures Broken(Apply(s, step))
  {
    hide Pending, All, Units;
    match step {
      case Submit(m, r) =>
        SubmitShape(s, m, r, Units(|s.submitted|, 0, m.bytes[..Accepted(r)]),
                    Units(|s.submitted|, Accepted(r), m.bytes[Accepted(r)..]));
      case DrainWrite(r) =>
        var f := s.queue[0];
        DrainShape(s, r, Units(f.id, f.start, f.remain[..Accepted(r)]),
                   Units(f.id, f.start + Accepted(r), f.remain[Accepted(r)..]));
      case _ =>
    }
    if s.lost == [] {
      var k: nat :| OutOfTurn(s, k);
      assert OutOfTurn(Apply(s, step), k);
    }
  }

  /** A direct write keeps an ordered state ordered exactly when it is orderly. */
  lemma {:induction false} SubmitOrder(s: State, m: Message, r: int)
    requires Inv(s) && InOrder(s) && s.lost == [] && KernelResult(r, |m.bytes|)
    ensures var s' := ApplySubmit(s, m, r);
      if Orderly(s, Submit(m, r)) then InOrder(s') && s'.lost == [] else Broken(s')
  {
    var head, rest := Units(|s.submitted|, 0, m.bytes[..Accepted(r)]),
                      Units(|s.submitted|, Accepted(r), m.bytes[Accepted(r)..]);
    SubmitShape(s, m, r, head, rest);
    if s.queue != [] {
      PendingFirst(s);
    }
    if Orderly(s, Submit(m, r)) {
      Interleave(s.sent, Pending(s.queue), head, rest);
    } else if r > 0 {
      assert head[0].id == |s.submitted|;
      assert OutOfTurn(ApplySubmit(s, m, r), |s.sent|);
    } else {
      assert rest[0].id == |s.submitted|;
    }
  }

  lemma {:induction false} PendingFirst(s: State)
    requires Inv(s) && s.queue != []
    ensures Pending(s.queue) != [] && Pending(s.queue)[0].id < |s.submitted|
  {
    assert s.queue[0] in s.queue;
    assert Units(s.queue[0].id, s.queue[0].start, s.queue[0].remain)[0].id == s.queue[0].id;
  }

  lemma {:induction false} Interleave<A>(a: seq<A>, p: seq<A>, h: seq<A>, r: seq<A>)
    requires p == [] || h == []
    ensures a + h + (p + r) == a + p + (h + r)
    ensures r == [] ==> a + h + p == a + p + (h + r)
  {
  }

  lemma {:induction false} DrainOrder(s: State, r: int)
    requires Inv(s) && InOrder(s) && s.lost == [] && s.queue != [] && KernelResult(r, |s.queue[0].remain|)
    ensures var s' := ApplyDrainWrite(s, r);
      if r >= 0 then InOrder(s') && s'.lost == [] else Broken(s')
  {
    var f, n := s.queue[0], Accepted(r);
    var head, rest := Units(f.id, f.start, f.remain[..n]), Units(f.id, f.start + n, f.remain[n..]);
    var tail := Pending(s.queue[1..]);
    DrainShape(s, r, head, rest);
    assert f in s.queue;
    Assoc(s.sent, head, rest + tail);
    if r < 0 {
      assert rest[0] in rest;
    }
  }

  lemma {:induction false} StepOrder(s: State, step: Step)
    requires Inv(s) && InOrder(s) && s.lost == [] && Enabled(s, step)
    ensures var s' := Apply(s, step);
      if Orderly(s, step) then InOrder(s') && s'.lost == [] else Broken(s')
  {
    match step {
      case Submit(m, r) => SubmitOrder(s, m, r);
      case DrainWrite(r) => DrainOrder(s, r);
      case _ =>
    }
  }

  lemma {:induction false} RunBroken(s: State, steps: seq<Step>)
    requires Broken(s) && IsRun(s, steps)
    ensures Broken(Exec(s, steps))
    decreases |steps|
  {
    if steps != [] {
      BrokenStays(s, steps[0]);
      RunBroken(Apply(s, steps[0]), steps[1..]);
    }
  }

  lemma {:induction false} RunOrder(s: State, steps: seq<Step>)
    requires Inv(s) && InOrder(s) && s.lost == [] && IsRun(s, steps)
    ensures InOrder(Exec(s, steps)) <==> OrderlyRun(s, steps)
    ensures OrderlyRun(s, steps) ==> Exec(s, steps).lost == []
    decreases |steps|
  {
    if steps != [] {
      var s' := Apply(s, steps[0]);
      InvStep(s, steps[0]);
      StepOrder(s, steps[0]);
      if Orderly(s, steps[0]) {
        RunOrder(s', steps[1..]);
      } else {
        RunBroken(s', steps[1..]);
        BrokenIsNotInOrder(Exec(s, steps));
      }
    }
  }

  /** For every run: wire then queue is the submitted stream, byte for byte and origin for
      origin, exactly when every attempt was orderly. */
  lemma {:induction false} WireOrderIffOrderly(steps: seq<Step>)
    requires IsRun(INIT, steps)
    ensures InOrder(Exec(INIT, steps)) <==> OrderlyRun(INIT, steps)
  {
    RunOrder(INIT, steps);
  }

  ghost function Concat(ms: seq<Message>): seq<Byte> {
    if ms == [] then [] else Concat(ms[..|ms| - 1]) + ms[|ms| - 1].bytes
  }

  lemma {:induction false} RawAll(ms: seq<Message>)
    ensures Raw(All(ms)) == Concat(ms)
  {
    if ms != [] {
      var n := |ms| - 1;
      RawAll(ms[..n]);
      RawAppend(All(ms[..n]), Units(n, 0, ms[n].bytes));
      RawUnits(n, 0, ms[n].bytes);
    }
  }

  /** In plain bytes: an orderly run puts the concatenation of the messages on the wire. */
  lemma {:induction false} OrderlyStream(steps: seq<Step>)
    requires IsRun(INIT, steps) && OrderlyRun(INIT, steps)
    ensures var s := Exec(INIT, steps);
      Raw(s.sent) + Raw(Pending(s.queue)) == Concat(s.submitted)
  {
    var s := Exec(INIT, steps);
    RunOrder(INIT, steps);
    RawAppend(s.sent, Pending(s.queue));
    RawAll(s.submitted);
  }

  /** Two ways the code departs from a stream: a second direct write overtakes a queued
      record, and a would-block result drops a message and reports it as written. */
  lemma {:induction false} Overtaking()
    ensures
      var steps := [Submit(Message([1, 2], NoCallback), 1), Submit(Message([3], NoCallback), 1)];
      IsRun(INIT, steps) && Raw(Exec(INIT, steps).sent) == [1, 3] && Exec(INIT, steps).lost == []
  {
    var a, b := Message([1, 2], NoCallback), Message([3], NoCallback);
    var s1 := Apply(INIT, Submit(a, 1));
    var s2 := Apply(s1, Submit(b, 1));
    var steps := [Submit(a, 1), Submit(b, 1)];
    assert steps[1..] == [Submit(b, 1)] && steps[1..][1..] == [];
    assert Exec(s1, steps[1..]) == s2;
    assert s1.sent == [Unit(0, 0, 1)];
    assert s2.sent == [Unit(0, 0, 1), Unit(1, 0, 3)];
  }

  lemma {:induction false} WouldBlockDrops()
    ensures
      var m := Message([7], Callback([]));
      var s := Apply(INIT, Submit(m, -1));
      Enabled(INIT, Submit(m, -1)) && s.sent == [] && s.queue == [] && s.ran == [0] && Raw(s.lost) == [7]
  {
  }

  // ---------- 3. The launch flag and the watcher ----------

  /** At every event-loop boundary of every run the flag, the watcher and the queue agree. */
  lemma {:induction false} BoundaryFlagsAgree(steps: seq<Step>)
    requires IsRun(INIT, steps)
    ensures var s := Exec(INIT, steps);
      if s.draining then s.launched && s.watching
      else (s.launched <==> s.queue != []) && (s.watching <==> s.queue != [])
  {
    RunInv(INIT, steps);
  }

  // ---------- 4. Completion callbacks ----------

  ghost predicate NoRepeat(s: seq<nat>) {
    forall i, j :: 0 <= i < j < |s| ==> s[i] != s[j]
  }

  ghost predicate HasCb(s: State, i: nat) {
    i < |s.submitted| && s.submitted[i].cb.Callback?
  }

  ghost predicate InQueue(q: seq<Rec>, i: nat) {
    exists r :: r in q && r.id == i
  }

  /** A callback has run exactly for the finished messages that have one, and none twice. */
  ghost predicate RanOnce(s: State) {
    && NoRepeat(s.ran)
    && forall i :: i in s.ran <==> HasCb(s, i) && !InQueue(s.queue, i)
  }

  /** The queue is first-in first-out, and the callbacks of queued messages ran in the order
      in which the messages were queued. */
  ghost predicate RanInOrder(s: State) {
    && s.enq == s.deq + Ids(s.queue)
    && Increasing(s.enq)
    && (forall i :: i in s.enq ==> i < |s.submitted|)
    && (forall a, b :: 0 <= a < b < |s.ran| && s.ran[a] in s.enq && s.ran[b] in s.enq ==> s.ran[a] < s.ran[b])
  }

  lemma {:induction false} RanOnceSubmit(s: State, m: Message, r: int)
    requires Inv(s) && RanOnce(s) && KernelResult(r, |m.bytes|)
    ensures RanOnce(ApplySubmit(s, m, r))
  {
    var s', id := ApplySubmit(s, m, r), |s.submitted|;
    assert !InQueue(s.queue, id);
    if Completes(r, |m.bytes|) {
      assert forall i :: i in s'.ran <==> i in s.ran || i in CbRun(id, m.cb);
    } else {
      var rec := s'.queue[|s.queue|];
      assert rec in s'.queue;
      forall i: nat ensures InQueue(s'.queue, i) <==> InQueue(s.queue, i) || i == id {
        assert forall x :: x in s'.queue <==> x in s.queue || x == rec;
      }
    }
  }

  lemma {:induction false} RanOnceDrain(s: State, r: int)
    requires Inv(s) && RanOnce(s) && s.queue != [] && KernelResult(r, |s.queue[0].remain|)
    ensures RanOnce(ApplyDrainWrite(s, r))
  {
    var s', f, tail := ApplyDrainWrite(s, r), s.queue[0], s.queue[1..];
    TailIds(s.queue, s.submitted);
    forall i: nat ensures InQueue(s.queue, i) <==> InQueue(tail, i) || i == f.id {
      assert forall x :: x in s.queue <==> x == f || x in tail;
    }
    assert !InQueue(tail, f.id);
    if Completes(r, |f.remain|) {
      assert forall i :: i in s'.ran <==> i in s.ran || i in CbRun(f.id, f.cb);
    } else {
      assert s'.queue[0] in s'.queue;
      forall i: nat ensures InQueue(s'.queue, i) <==> InQueue(tail, i) || i == f.id {
        assert forall x :: x in s'.queue <==> x == s'.queue[0] || x in tail;
      }
    }
  }

  lemma {:induction false} RanInOrderSubmit(s: State, m: Message, r: int)
    requires Inv(s) && RanOnce(s) && RanInOrder(s) && KernelResult(r, |m.bytes|)
    ensures RanInOrder(ApplySubmit(s, m, r))
  {
    var s', id := ApplySubmit(s, m, r), |s.submitted|;
    assert id !in s.ran;
    if Completes(r, |m.bytes|) {
      assert id !in s'.enq;
      assert forall a :: |s.ran| <= a < |s'.ran| ==> s'.ran[a] == id;
    } else {
      var n := Accepted(r);
      QueueAppend(s.queue, s.submitted, m, Rec(id, n, m.bytes[n..], m.cb));
      Assoc(s.deq, Ids(s.queue), [id]);
      IncreasingAppend(s.enq, id);
    }
  }

  /** A queued message whose callback ran was queued before the present front. */
  lemma {:induction false} RanBeforeFront(s: State, i: nat)
    requires RanOnce(s) && RanInOrder(s) && s.queue != [] && i in s.ran && i in s.enq
    ensures i < s.queue[0].id
  {
    var k :| 0 <= k < |s.enq| && s.enq[k] == i;
    assert !InQueue(s.queue, i);
    assert forall j :: 0 <= j < |s.queue| ==> s.queue[j] in s.queue && s.enq[|s.deq| + j] == s.queue[j].id;
    assert k < |s.deq|;
    assert s.enq[|s.deq|] == s.queue[0].id;
  }

  lemma {:induction false} RanInOrderDrain(s: State, r: int)
    requires Inv(s) && RanOnce(s) && RanInOrder(s) && s.queue != [] && KernelResult(r, |s.queue[0].remain|)
    ensures RanInOrder(ApplyDrainWrite(s, r))
  {
    var s', f := ApplyDrainWrite(s, r), s.queue[0];
    TailIds(s.queue, s.submitted);
    if Completes(r, |f.remain|) {
      Assoc(s.deq, [f.id], Ids(s.queue[1..]));
      forall i | i in s.ran && i in s.enq ensures i < f.id {
        RanBeforeFront(s, i);
      }
    } else {
      assert Ids(s'.queue) == Ids(s.queue);
    }
  }

  lemma {:induction false} RunCallbacks(s: State, steps: seq<Step>)
    requires Inv(s) && RanOnce(s) && RanInOrder(s) && IsRun(s, steps)
    ensures RanOnce(Exec(s, steps)) && RanInOrder(Exec(s, steps))
    decreases |steps|
  {
    if steps != [] {
      InvStep(s, steps[0]);
      match steps[0] {
        case Submit(m, r) => RanOnceSubmit(s, m, r); RanInOrderSubmit(s, m, r);
        case DrainWrite(r) => RanOnceDrain(s, r); RanInOrderDrain(s, r);
        case _ =>
      }
      RunCallbacks(Apply(s, steps[0]), steps[1..]);
    }
  }

  /** When a callback has run, all of its message was accepted, unless some of it was dropped. */
  ghost predicate RanAfterBytes(s: State) {
    forall i :: i in s.ran ==>
      && i < |s.submitted|
      && (Of(s.sent, i) == Units(i, 0, s.submitted[i].bytes) <==> Of(s.lost, i) == [])
      && (s.lost == [] ==> Raw(Of(s.sent, i)) == s.submitted[i].bytes)
  }

  lemma {:induction false} SplitWhole<A>(a: seq<A>, b: seq<A>, whole: seq<A>)
    requires a + [] + b == whole
    ensures a == whole <==> b == []
  {
    assert |a| + |b| == |whole|;
    if b == [] {
      assert a + [] + b == a;
    }
  }

  lemma {:induction false} AcceptedBeforeCallback(s: State)
    requires RanOnce(s) && forall i :: 0 <= i < |s.submitted| ==> Conserved(s, i)
    ensures RanAfterBytes(s)
  {
    forall i | i in s.ran
      ensures i < |s.submitted|
      ensures Of(s.sent, i) == Units(i, 0, s.submitted[i].bytes) <==> Of(s.lost, i) == []
      ensures s.lost == [] ==> Raw(Of(s.sent, i)) == s.submitted[i].bytes
    {
      assert HasCb(s, i) && !InQueue(s.queue, i);
      assert Conserved(s, i);
      PendingNone(s.queue, i);
      SplitWhole(Of(s.sent, i), Of(s.lost, i), Units(i, 0, s.submitted[i].bytes));
      RawUnits(i, 0, s.submitted[i].bytes);
    }
  }

  /** For every run of a new connection: callbacks run once, in queue order, only when nothing
      of the message is left to send and all of it was accepted or else some of it dropped, and
      all have run when the queue is empty.  Without failing attempts a callback therefore runs
      only after all bytes of its message were accepted. */
  lemma {:induction false} CallbacksOverRuns(steps: seq<Step>)
    requires IsRun(INIT, steps)
    ensures var s := Exec(INIT, steps);
      && RanOnce(s) && RanInOrder(s) && RanAfterBytes(s)
      && (forall i :: i in s.ran ==> Of(Pending(s.queue), i) == [])
      && (s.queue == [] ==> forall i :: HasCb(s, i) ==> i in s.ran)
      && (LosslessRun(INIT, steps) ==> forall i :: i in s.ran ==> Raw(Of(s.sent, i)) == s.submitted[i].bytes)
  {
    StartsRight();
    hide IsRun, Exec, Inv, RanInOrder, RanOnce, RanAfterBytes, Conserved, LosslessRun, Of, Pending, Units, Raw;
    RunCallbacks(INIT, steps);
    RunConserves(INIT, steps);
    LossIffError(INIT, steps);
    CallbacksDone(Exec(INIT, steps));
  }

  lemma {:induction false} StartsRight()
    ensures Inv(INIT) && RanOnce(INIT) && RanInOrder(INIT) && INIT.lost == [] && INIT.submitted == []
  {
    assert Ids(INIT.queue) == [];
  }

  lemma {:induction false} CallbacksDone(s: State)
    requires RanOnce(s) && forall i :: 0 <= i < |s.submitted| ==> Conserved(s, i)
    ensures RanAfterBytes(s)
    ensures forall i :: i in s.ran ==> Of(Pending(s.queue), i) == []
    ensures s.queue == [] ==> forall i :: HasCb(s, i) ==> i in s.ran
    ensures s.lost == [] ==> forall i :: i in s.ran ==> i < |s.submitted| && Raw(Of(s.sent, i)) == s.submitted[i].bytes
  {
    hide Of, Pending, Units, Raw, Conserved;
    AcceptedBeforeCallback(s);
    forall i | i in s.ran ensures Of(Pending(s.queue), i) == [] {
      assert !InQueue(s.queue, i);
      PendingNone(s.queue, i);
    }
  }
}
