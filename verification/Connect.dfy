/** One outgoing connection of src/sock.cxx, with the callbacks that src/luafound.cxx installs:
    each of them frees the block that holds the script's two functions. */
module Connect {

  /** What `connect` returns at once. */
  datatype Immediate = Connected | InProgress | Refused

  /** An event of the connect watcher; `failed` is the socket's pending error. */
  datatype Event = Event(writable: bool, failed: bool)

  datatype Called = Success | Failure

  /** The index of the first writable event, or the number of events. */
  ghost function FirstWritable(events: seq<Event>): (k: nat)
    ensures k <= |events| && (k < |events| ==> events[k].writable)
    ensures forall i :: 0 <= i < k ==> !events[i].writable
  {
    if events == [] || events[0].writable then 0 else 1 + FirstWritable(events[1..])
  }

  /** The callbacks that a run makes: the failure callback at once if `connect` fails, else
      one callback for the first writable event, chosen by the socket's error. */
  ghost function Expected(e: Immediate, events: seq<Event>): (calls: seq<Called>) {
    if e.Refused? then [Failure]
    else
      var k := FirstWritable(events);
      if k == |events| then [] else [if events[k].failed then Failure else Success]
  }

  class Attempt {
    var watching: bool
    var calls: seq<Called>
    var argsFreed: nat      // ixfd_connect_args
    var blockReleased: nat  // ixlb_connect_data
    var ctxMade: nat        // connection contexts created

    ghost predicate Valid()
      reads this
    {
      && |calls| <= 1 && (watching ==> calls == [])
      && blockReleased == |calls|
      && ctxMade == (if calls != [] && calls[0] == Success then 1 else 0)
      && argsFreed <= |calls|
    }

    method Call(c: Called)
      modifies `calls, `blockReleased
      ensures calls == old(calls) + [c] && blockReleased == old(blockReleased) + 1
    {
      calls := calls + [c];
      blockReleased := blockReleased + 1;
    }

    /** `ixfd_commonsock_tcp_createnconnect`. */
    constructor (e: Immediate)
      ensures Valid() && watching == !e.Refused? && argsFreed == 0
      ensures calls == if e.Refused? then [Failure] else []
    {
      watching, calls, argsFreed, blockReleased, ctxMade := false, [], 0, 0, 0;
      new;
      if e.Connected? || e.InProgress? {
        watching := true;
      } else {
        Call(Failure);
      }
    }

    /** `ixfd_commonsock_connect_cb`. */
    method OnEvent(ev: Event)
      requires Valid() && watching
      modifies this
      ensures Valid() && watching == !ev.writable
      ensures calls == if !ev.writable then [] else if ev.failed then [Failure] else [Success]
      ensures argsFreed == old(argsFreed) + if ev.writable then 1 else 0
    {
      if ev.writable {
        if ev.failed {
          Call(Failure);
        } else {
          ctxMade := ctxMade + 1;
          Call(Success);
        }
        argsFreed := argsFreed + 1;
        watching := false;
      }
    }
  }

  /** Over every run of a connect, with events delivered only while the watcher runs: exactly
      the expected callbacks, and the script's block is released once for each. */
  method Drive(e: Immediate, events: seq<Event>)
    returns (calls: seq<Called>, released: nat, argsFreed: nat, ctxMade: nat)
    ensures calls == Expected(e, events) && |calls| <= 1
    ensures released == |calls| && ctxMade == (if calls != [] && calls[0] == Success then 1 else 0)
    ensures argsFreed == if e.Refused? then 0 else |calls|
  {
    var a := new Attempt(e);
    for i := 0 to |events|
      invariant a.Valid() && fresh(a)
      invariant e.Refused? ==> !a.watching && a.calls == [Failure] && a.argsFreed == 0
      invariant !e.Refused? && a.watching ==> i <= FirstWritable(events) && a.argsFreed == 0
      invariant !e.Refused? && !a.watching ==>
        FirstWritable(events) < i && a.calls == Expected(e, events) && a.argsFreed == 1
    {
      if a.watching {
        a.OnEvent(events[i]);
      }
    }
    calls, released, argsFreed, ctxMade := a.calls, a.blockReleased, a.argsFreed, a.ctxMade;
  }

  /** Event `i` is the first writable one. */
  predicate FirstAt(events: seq<Event>, i: nat) {
    i < |events| && events[i].writable && forall j :: 0 <= j < i ==> !events[j].writable
  }

  /** The socket's error at the first writable event. */
  ghost predicate FirstHas(events: seq<Event>, failed: bool) {
    exists i: nat :: FirstAt(events, i) && events[i].failed == failed
  }

  /** Exactly one callback runs exactly when `connect` fails at once or a writable event comes;
      it is the success callback exactly when the socket has no error at the first such event. */
  lemma {:induction false} CalledOnceIff(e: Immediate, events: seq<Event>)
    ensures |Expected(e, events)| <= 1
    ensures |Expected(e, events)| == 1 <==> e.Refused? || exists i :: 0 <= i < |events| && events[i].writable
    ensures Expected(e, events) == [Success] <==> !e.Refused? && FirstHas(events, false)
    ensures Expected(e, events) == [Failure] <==> e.Refused? || FirstHas(events, true)
  {
    var k := FirstWritable(events);
    if k < |events| {
      assert FirstAt(events, k);
    }
    assert forall i: nat :: FirstAt(events, i) ==> i == k;
  }
}
