/** The circular singly linked queue of src/util.cxx.

    A queue is an entry whose `next` is the rear node.  The rear's successor is a
    placeholder that is never removed, and the placeholder's successor is the front.
    The ghost field `nodes` lists every node ever allocated, the placeholder first; the
    first `gone` of the others have been freed.  `released` logs every `free`, in order. */
module CyclicQueue {

  class Node<T> {
    var data: T
    var next: Node<T>

    constructor Linked(data: T, next: Node<T>)
      ensures this.data == data && this.next == next
    {
      this.data, this.next := data, next;
    }

    /** The placeholder of a new queue: its own successor. */
    constructor Looped(data: T)
      ensures this.data == data && this.next == this
    {
      this.data, this.next := data, this;
    }
  }

  ghost predicate Distinct<A>(s: seq<A>) {
    forall i, j :: 0 <= i < j < |s| ==> s[i] != s[j]
  }

  lemma {:induction false} DistinctAppend<A>(s: seq<A>, x: A)
    requires Distinct(s) && x !in s
    ensures Distinct(s + [x])
  {
  }

  /** The node reached from `n` by `k` hops along `next`. */
  ghost function Follow<T>(n: Node<T>, k: nat): Node<T>
    reads *
  {
    if k == 0 then n else Follow(n, k - 1).next
  }

  class Queue<T> {
    var next: Node<T>
    ghost var contents: seq<T> // the queued values, front first
    ghost var nodes: seq<Node<T>>
    ghost var gone: nat
    ghost var released: seq<object>
    ghost var footprint: set<Node<T>>

    /** The live nodes form one simple cycle: rear, placeholder, front, ..., rear. */
    ghost predicate Valid()
      reads this, nodes
      ensures Valid() ==> next in footprint && (contents != [] ==> next.next in footprint)
    {
      && gone < |nodes| && Distinct(nodes)
      && next == (if Size() == 0 then nodes[0] else nodes[|nodes| - 1])
      && nodes[0].next == (if Size() == 0 then nodes[0] else nodes[gone + 1])
      && (forall i :: gone < i < |nodes| - 1 ==> nodes[i].next == nodes[i + 1])
      && (Size() > 0 ==> nodes[|nodes| - 1].next == nodes[0])
      && |contents| == Size()
      && (forall i :: 0 <= i < |contents| ==> contents[i] == nodes[gone + 1 + i].data)
      && released == nodes[1..gone + 1]
      && (forall i :: 0 <= i < |nodes| ==> nodes[i] in footprint)
    }

    ghost function Size(): int
      reads this
    {
      |nodes| - 1 - gone
    }

    /** The live nodes in cycle order, placeholder first. */
    ghost function Ring(): (ring: seq<Node<T>>)
      requires gone < |nodes|
      reads this
    {
      [nodes[0]] + nodes[gone + 1..]
    }

    constructor (filler: T)
      ensures Valid() && contents == [] && released == []
      ensures |nodes| == 1 && fresh(footprint)
    {
      var placeHolder := new Node.Looped(filler);
      next := placeHolder;
      nodes, gone, released := [placeHolder], 0, [];
      contents, footprint := [], {placeHolder};
    }

    /** The new node goes after the rear and becomes the rear; only the old rear is written. */
    method Enqueue(x: T)
      requires Valid()
      modifies this, next
      ensures Valid()
      ensures |nodes| == |old(nodes)| + 1 && nodes[..|old(nodes)|] == old(nodes) && fresh(nodes[|old(nodes)|])
      ensures gone == old(gone) && footprint == old(footprint) + {nodes[|old(nodes)|]}
      ensures contents == old(contents) + [x]
    {
      assert forall i :: 0 <= i < |nodes| && nodes[i] == next ==> i == (if Size() == 0 then 0 else |nodes| - 1);
      var newNode := new Node.Linked(x, next.next);
      DistinctAppend(nodes, newNode);
      hide Distinct;
      next.next := newNode;
      next := newNode;
      nodes := nodes + [newNode];
      contents := contents + [x];
      footprint := footprint + {newNode};
    }

    /** The node after the placeholder is unlinked, freed and its value returned; of the
        nodes only the placeholder is written. */
    method Dequeue() returns (x: T)
      requires Valid()
      requires contents != []
      modifies this, next.next
      ensures Valid()
      ensures nodes == old(nodes) && gone == old(gone) + 1 && footprint == old(footprint)
      ensures x == old(contents)[0] && contents == old(contents)[1..]
    {
      var retNode := next.next.next;
      next.next.next := retNode.next;
      if retNode == next {
        next := retNode.next;
      }
      x := retNode.data;
      released := released + [retNode];
      contents := contents[1..];
      gone := gone + 1;
    }

    method Front() returns (x: T)
      requires Valid()
      requires contents != []
      ensures x == contents[0]
    {
      x := next.next.next.data;
    }

    method Empty() returns (b: bool)
      requires Valid()
      ensures b <==> contents == []
    {
      b := next == next.next;
    }

    /** Dequeues everything, then frees the placeholder and the entry.  Every node that was
        ever linked is then released exactly once, the placeholder and the entry last. */
    method Free()
      requires Valid()
      modifies this, nodes[0]
      ensures nodes == old(nodes) && Distinct(nodes)
      ensures released == nodes[1..] + [nodes[0], this]
    {
      var empty := Empty();
      while !empty
        invariant Valid() && nodes == old(nodes)
        invariant empty <==> contents == []
        decreases Size()
      {
        var _ := Dequeue();
        empty := Empty();
      }
      released := released + [next];
      released := released + [this];
    }
  }

  /** Walking `next` from the rear visits placeholder, front, ..., and is back at the rear
      after exactly as many hops as there are live nodes, and not before. */
  lemma {:induction false} RearFollow<T>(q: Queue<T>, k: nat)
    requires q.Valid() && 1 <= k <= |q.Ring()|
    ensures Follow(q.next, k) == q.Ring()[k - 1]
    ensures Follow(q.next, k) == q.next <==> k == |q.Ring()|
  {
    if k > 1 {
      RearFollow(q, k - 1);
      assert q.Ring()[k - 1] == q.nodes[q.gone + k - 1];
    }
  }

  // ---------- Runs ----------

  datatype Op<T> = Put(x: T) | Take | Peek | IsEmpty
  datatype Obs<T> = Nothing | Value(x: T) | Flag(b: bool)

  /** The plain sequence that the queue stands for. */
  function Next<T>(s: seq<T>, op: Op<T>): seq<T> {
    match op
    case Put(x) => s + [x]
    case Take => if s == [] then [] else s[1..]
    case Peek => s
    case IsEmpty => s
  }

  ghost function See<T>(s: seq<T>, op: Op<T>): Obs<T>
    requires (op.Take? || op.Peek?) ==> s != []
  {
    match op
    case Put(_) => Nothing
    case Take => Value(s[0])
    case Peek => Value(s[0])
    case IsEmpty => Flag(s == [])
  }

  function Final<T>(s: seq<T>, ops: seq<Op<T>>): seq<T>
    decreases |ops|
  {
    if ops == [] then s else Final(Next(s, ops[0]), ops[1..])
  }

  /** Values are taken or peeked only when there is one. */
  ghost predicate Legal<T>(s: seq<T>, ops: seq<Op<T>>)
    decreases |ops|
  {
    ops == [] ||
    (((ops[0].Take? || ops[0].Peek?) ==> s != []) && Legal(Next(s, ops[0]), ops[1..]))
  }

  ghost function Seen<T>(s: seq<T>, ops: seq<Op<T>>): seq<Obs<T>>
    requires Legal(s, ops)
    decreases |ops|
  {
    if ops == [] then [] else [See(s, ops[0])] + Seen(Next(s, ops[0]), ops[1..])
  }

  ghost function Puts<T>(ops: seq<Op<T>>): seq<T> {
    if ops == [] then [] else (if ops[0].Put? then [ops[0].x] else []) + Puts(ops[1..])
  }

  ghost function Takes<T>(s: seq<T>, ops: seq<Op<T>>): seq<T>
    requires Legal(s, ops)
    decreases |ops|
  {
    if ops == [] then [] else
      (if ops[0].Take? then [s[0]] else []) + Takes(Next(s, ops[0]), ops[1..])
  }

  /** From taken + rest == s' + puts to the same with one more value at either end. */
  lemma {:induction false} Regroup<A>(
      t: seq<A>, taken: seq<A>, rest: seq<A>, s': seq<A>, s: seq<A>, p: seq<A>, puts: seq<A>)
    requires taken + rest == s' + puts && t + s' == s + p
    ensures t + taken + rest == s + (p + puts)
  {
    assert t + taken + rest == t + (taken + rest);
    assert t + (s' + puts) == t + s' + puts;
    assert s + (p + puts) == s + p + puts;
  }

  /** Over every run: what was taken, then what is left, is what was there, then what was put. */
  lemma {:induction false} RunIsFifo<T>(s: seq<T>, ops: seq<Op<T>>)
    requires Legal(s, ops)
    ensures Takes(s, ops) + Final(s, ops) == s + Puts(ops)
    decreases |ops|
  {
    if ops != [] {
      var s' := Next(s, ops[0]);
      RunIsFifo(s', ops[1..]);
      Regroup(if ops[0].Take? then [s[0]] else [], Takes(s', ops[1..]), Final(s', ops[1..]),
              s', s, if ops[0].Put? then [ops[0].x] else [], Puts(ops[1..]));
    }
  }

  function TakeCount<T>(ops: seq<Op<T>>): nat {
    if ops == [] then 0 else (if ops[0].Take? then 1 else 0) + TakeCount(ops[1..])
  }

  /** What operation `k` sees, without following the queue: of the values there and put so far,
      the one after those taken so far, and an empty queue exactly if all of them were taken. */
  ghost predicate SeesStream<T>(s: seq<T>, ops: seq<Op<T>>, k: nat, o: Obs<T>)
    requires k < |ops|
  {
    var all, t := s + Puts(ops[..k]), TakeCount(ops[..k]);
    && t <= |all|
    && match ops[k]
       case Put(_) => o == Nothing
       case IsEmpty => o == Flag(t == |all|)
       case _ => t < |all| && o == Value(all[t])
  }

  lemma {:induction false} SeenIsStream<T>(s: seq<T>, ops: seq<Op<T>>, k: nat)
    requires Legal(s, ops) && k < |ops|
    ensures |Seen(s, ops)| == |ops| && SeesStream(s, ops, k, Seen(s, ops)[k])
    decreases |ops|
  {
    SeenLength(s, ops);
    if k == 0 {
      assert ops[..0] == [];
      assert s + [] == s;
    } else {
      hide SeesStream;
      var s' := Next(s, ops[0]);
      SeenIsStream(s', ops[1..], k - 1);
      assert Seen(s, ops)[k] == Seen(s', ops[1..])[k - 1];
      SeesCons(s, ops, k, Seen(s, ops)[k]);
    }
  }

  lemma {:induction false} SeesCons<T>(s: seq<T>, ops: seq<Op<T>>, k: nat, o: Obs<T>)
    requires 0 < k < |ops| && (ops[0].Take? ==> s != [])
    requires SeesStream(Next(s, ops[0]), ops[1..], k - 1, o)
    ensures SeesStream(s, ops, k, o)
  {
    assert ops[..k] == [ops[0]] + ops[1..][..k - 1];
    StreamCons(s, ops[0], ops[1..][..k - 1]);
    hide Puts, TakeCount, Next;
  }

  lemma {:induction false} StreamCons<T>(s: seq<T>, op: Op<T>, before: seq<Op<T>>)
    requires op.Take? ==> s != []
    ensures s + Puts([op] + before) == (if op.Take? then [s[0]] else []) + (Next(s, op) + Puts(before))
    ensures TakeCount([op] + before) == (if op.Take? then 1 else 0) + TakeCount(before)
  {
    assert ([op] + before)[1..] == before;
  }

  lemma {:induction false} SeenLength<T>(s: seq<T>, ops: seq<Op<T>>)
    requires Legal(s, ops)
    ensures |Seen(s, ops)| == |ops|
    decreases |ops|
  {
    if ops != [] {
      SeenLength(Next(s, ops[0]), ops[1..]);
    }
  }

  method Perform<T>(q: Queue<T>, op: Op<T>) returns (o: Obs<T>)
    requires q.Valid() && ((op.Take? || op.Peek?) ==> q.contents != [])
    modifies q, q.footprint
    ensures q.Valid() && fresh(q.footprint - old(q.footprint))
    ensures q.contents == Next(old(q.contents), op) && o == See(old(q.contents), op)
  {
    o := Nothing;
    match op {
      case Put(x) => q.Enqueue(x);
      case Take => var x := q.Dequeue(); o := Value(x);
      case Peek => var x := q.Front(); o := Value(x);
      case IsEmpty => var b := q.Empty(); o := Flag(b);
    }
  }

  /** The linked queue refines the plain sequence on every legal run of operations. */
  method Replay<T>(q: Queue<T>, ops: seq<Op<T>>) returns (obs: seq<Obs<T>>)
    requires q.Valid() && Legal(q.contents, ops)
    modifies q, q.footprint
    ensures q.Valid() && fresh(q.footprint - old(q.footprint))
    ensures q.contents == Final(old(q.contents), ops)
    ensures obs == Seen(old(q.contents), ops) && |obs| == |ops|
    ensures forall k :: 0 <= k < |ops| ==> SeesStream(old(q.contents), ops, k, obs[k])
    decreases |ops|
  {
    forall k | 0 <= k < |ops|
      ensures |Seen(q.contents, ops)| == |ops| && SeesStream(q.contents, ops, k, Seen(q.contents, ops)[k])
    {
      SeenIsStream(q.contents, ops, k);
    }
    hide SeesStream;
    SeenLength(q.contents, ops);
    if ops == [] {
      obs := [];
    } else {
      var o := Perform(q, ops[0]);
      var rest := Replay(q, ops[1..]);
      obs := [o] + rest;
    }
  }
}
