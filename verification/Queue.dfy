/** The heap-linked queue of lib/queue.c. `live` marks what has been allocated and not yet freed. */
module LinkedQueue {
  import opened Bytes
  import opened Forum

  /** The callbacks that the program hands to `queue_create` and `sharedptr_create`. */
  datatype Callback = LemessageDelete | LethreadDelete | SharedptrDelete

  /** A callback that frees one datum, with the record of everything it was called on. */
  class Destructor<T> {
    ghost var destroyed: seq<T>

    constructor ()
      ensures destroyed == []
    {
      destroyed := [];
    }

    method Call(data: T)
      modifies this
      ensures destroyed == old(destroyed) + [data]
    {
      destroyed := destroyed + [data];
    }
  }

  class QueueNode<T> {
    var data: Option<T>
    var next: QueueNode?<T>
    ghost var live: bool

    constructor (data: T)
      ensures this.data == Some(data) && next == null && live
    {
      this.data, next, live := Some(data), null, true;
    }
  }

  ghost predicate LinkedAt<T>(nodes: seq<QueueNode<T>>, contents: seq<T>, i: nat)
    requires i < |nodes| == |contents|
    reads nodes
  {
    && nodes[i].live && nodes[i].data == Some(contents[i])
    && nodes[i].next == if i + 1 < |nodes| then nodes[i + 1] else null
  }

  /** The chain that `next` pointers make: live nodes that hold `contents`, each pointing to the one after it. */
  ghost predicate Chain<T>(nodes: seq<QueueNode<T>>, contents: seq<T>)
    reads nodes
  {
    |nodes| == |contents| && forall i :: 0 <= i < |nodes| ==> LinkedAt(nodes, contents, i)
  }

  /** A chain that ends in null visits no node twice. */
  lemma {:induction false} ChainHasNoCycle<T>(nodes: seq<QueueNode<T>>, contents: seq<T>, i: nat, j: nat)
    requires Chain(nodes, contents) && i < j < |nodes|
    ensures nodes[i] != nodes[j]
    decreases |nodes| - j
  {
    assert LinkedAt(nodes, contents, i) && LinkedAt(nodes, contents, j);
    if j + 1 < |nodes| {
      ChainHasNoCycle(nodes, contents, i + 1, j + 1);
    }
  }

  lemma ChainTail<T>(nodes: seq<QueueNode<T>>, contents: seq<T>)
    requires Chain(nodes, contents) && nodes != []
    ensures LinkedAt(nodes, contents, 0)
    ensures Chain(nodes[1..], contents[1..]) && nodes[0] !in nodes[1..]
  {
    var rest := nodes[1..];
    forall i | 0 <= i < |rest| ensures LinkedAt(rest, contents[1..], i) && rest[i] != nodes[0] {
      assert LinkedAt(nodes, contents, i + 1);
      ChainHasNoCycle(nodes, contents, 0, i + 1);
    }
  }

  lemma LastIsLast<T>(nodes: seq<QueueNode<T>>, contents: seq<T>)
    requires Chain(nodes, contents) && nodes != []
    ensures nodes[|nodes| - 1] !in nodes[..|nodes| - 1]
  {
    forall i | 0 <= i < |nodes| - 1 ensures nodes[i] != nodes[|nodes| - 1] {
      ChainHasNoCycle(nodes, contents, i, |nodes| - 1);
    }
  }

  /** `new_node` linked behind the last node of a chain. */
  method LinkLast<T>(last: QueueNode<T>, node: QueueNode<T>, ghost nodes: seq<QueueNode<T>>, ghost contents: seq<T>)
    requires Chain(nodes, contents) && nodes != [] && last == nodes[|nodes| - 1]
    requires node !in nodes && node.live && node.data.Some? && node.next == null
    modifies last
    ensures Chain(nodes + [node], contents + [node.data.value])
  {
    LastIsLast(nodes, contents);
    assert forall i :: 0 <= i < |nodes| - 1 ==> nodes[i] == nodes[..|nodes| - 1][i];
    label Before:
    last.next := node;
    forall i | 0 <= i <= |nodes| ensures LinkedAt(nodes + [node], contents + [node.data.value], i) {
      assert i < |nodes| ==> old@Before(LinkedAt(nodes, contents, i));
    }
  }

  class Queue<T> {
    var size: nat
    var first: QueueNode?<T>
    var last: QueueNode?<T>
    const destruct: Callback
    ghost var nodes: seq<QueueNode<T>>
    ghost var contents: seq<T>
    ghost var live: bool

    /** `last` means something only while there is a first node. */
    ghost predicate Valid()
      reads this, nodes
    {
      && live
      && Chain(nodes, contents)
      && size == |nodes|
      && first == (if nodes == [] then null else nodes[0])
      && (nodes != [] ==> last == nodes[|nodes| - 1])
    }

    constructor (destruct: Callback)
      ensures Valid() && contents == [] && this.destruct == destruct && nodes == []
    {
      size, first, last := 0, null, null;
      this.destruct := destruct;
      nodes, contents, live := [], [], true;
    }

    method IsEmpty() returns (empty: bool)
      requires Valid()
      ensures empty <==> contents == []
    {
      empty := size == 0;
    }

    /** A null pointer is refused; anything else goes to the end, whatever an emptying pop left in `last`. */
    method Push(data: Option<T>) returns (status: Status)
      requires Valid()
      modifies this, nodes
      ensures Valid()
      ensures forall i :: 0 <= i < |nodes| ==> nodes[i] in old(nodes) || fresh(nodes[i])
      ensures status == if data.None? then NPTR else OK
      ensures contents == old(contents) + if data.None? then [] else [data.value]
    {
      if data.None? {
        return NPTR;
      }
      var node := new QueueNode(data.value);
      if first == null {
        first := node;
        last := node;
      } else {
        LinkLast(last, node, nodes, contents);
        last := node;
      }
      size := size + 1;
      nodes, contents := nodes + [node], contents + [data.value];
      status := OK;
    }

    /**
      The first element leaves and its node is freed. The emptiness test comes before the size changes,
      so after the last element `last` still points to the freed node.
     */
    method Pop() returns (data: Option<T>)
      requires Valid()
      modifies this, nodes
      ensures Valid()
      ensures old(contents) == [] ==> data == None && contents == [] && nodes == []
      ensures old(contents) != [] ==>
        && data == Some(old(contents)[0]) && contents == old(contents)[1..]
        && nodes == old(nodes)[1..] && !old(nodes)[0].live
      ensures old(size) == 1 ==> last == old(first) && !last.live
    {
      var node := first;
      if size == 0 {
        return None;
      }
      ChainTail(nodes, contents);
      data := node.data;
      first := node.next;
      node.live := false;
      last := if size == 0 then null else last;
      size := size - 1;
      nodes, contents := nodes[1..], contents[1..];
    }

    /** Every remaining element is destructed once, in order, and every node is freed with the queue. */
    method Delete(destructor: Destructor<T>)
      requires Valid() && destruct != SharedptrDelete
      modifies this, nodes, destructor
      ensures destructor.destroyed == old(destructor.destroyed) + old(contents)
      ensures !live && forall n :: n in old(nodes) ==> Freed(n)
    {
      ghost var all, rest, left := nodes, nodes, contents;
      var node := first;
      while node != null
        invariant nodes == all && size == |rest| && live
        invariant forall n :: n in rest ==> n in all
        invariant forall n :: n in all ==> n in rest || Freed(n)
        invariant node == if rest == [] then null else rest[0]
        invariant Chain(rest, left)
        invariant destructor.destroyed + left == old(destructor.destroyed) + old(contents)
        decreases |rest|
      {
        assert node in rest;
        assert LinkedAt(rest, left, 0);
        if node.data.Some? {
          destructor.Call(node.data.value);
        }
        node := FreeNode(node, rest, left);
        size := size - 1;
        rest, left := rest[1..], left[1..];
      }
      live := false;
    }
  }

  ghost predicate Freed<T>(node: QueueNode<T>)
    reads node
  {
    !node.live && node.data == None
  }

  /** The end of a turn of the deleting loop: the datum is forgotten and its node freed. */
  method FreeNode<T>(node: QueueNode<T>, ghost rest: seq<QueueNode<T>>, ghost left: seq<T>)
    returns (next: QueueNode?<T>)
    requires Chain(rest, left) && rest != [] && node == rest[0]
    modifies node
    ensures Freed(node) && node !in rest[1..]
    ensures next == if |rest| > 1 then rest[1] else null
    ensures Chain(rest[1..], left[1..])
  {
    ChainTail(rest, left);
    next := node.next;
    node.data := None;
    node.live := false;
  }

  // ------------------------------------------------------------- any mix of operations

  datatype Op<+T> = PushOp(data: Option<T>) | PopOp

  /** What is left in the queue and what the pops returned, for a queue that is just a sequence. */
  function Run<T>(contents: seq<T>, ops: seq<Op<T>>): (seq<T>, seq<Option<T>>)
    decreases |ops|
  {
    if ops == [] then (contents, []) else
    match ops[0]
    case PushOp(data) => Run(contents + Given(data), ops[1..])
    case PopOp =>
      if contents == [] then var r := Run(contents, ops[1..]); (r.0, [None] + r.1)
      else var r := Run(contents[1..], ops[1..]); (r.0, [Some(contents[0])] + r.1)
  }

  function Given<T>(data: Option<T>): seq<T> {
    if data.None? then [] else [data.value]
  }

  function AllGiven<T>(data: seq<Option<T>>): seq<T> {
    if data == [] then [] else Given(data[0]) + AllGiven(data[1..])
  }

  function Pushed<T>(ops: seq<Op<T>>): seq<T> {
    if ops == [] then []
    else (if ops[0].PushOp? then Given(ops[0].data) else []) + Pushed(ops[1..])
  }

  lemma Regroup<T>(x: seq<T>, a: seq<T>, b: seq<T>, c: seq<T>, d: seq<T>)
    requires a + b == c + d
    ensures (x + a) + b == (x + c) + d
  {
    assert (x + a) + b == x + (a + b);
    assert (x + c) + d == x + (c + d);
  }

  /** First in, first out: what the pops return, then what is left, is what was there, then what was pushed. */
  lemma {:induction false} FirstInFirstOut<T>(contents: seq<T>, ops: seq<Op<T>>)
    ensures AllGiven(Run(contents, ops).1) + Run(contents, ops).0 == contents + Pushed(ops)
    decreases |ops|
  {
    if ops != [] {
      var rest, got := ops[1..], Run(contents, ops).1;
      match ops[0]
      case PushOp(data) =>
        FirstInFirstOut(contents + Given(data), rest);
        assert (contents + Given(data)) + Pushed(rest) == contents + (Given(data) + Pushed(rest));
      case PopOp =>
        var left := if contents == [] then [] else contents[1..];
        FirstInFirstOut(left, rest);
        assert got[1..] == Run(left, rest).1;
        assert contents == Given(got[0]) + left && Pushed(ops) == Pushed(rest);
        Regroup(Given(got[0]), AllGiven(got[1..]), Run(contents, ops).0, left, Pushed(rest));
    }
  }

  lemma RunSnoc<T>(contents: seq<T>, ops: seq<Op<T>>, out: seq<Option<T>>)
    requires ops != []
    ensures ops[0].PushOp? ==> Run(contents, ops) == Run(contents + Given(ops[0].data), ops[1..])
    ensures ops[0].PopOp? && contents == [] ==>
      out + Run(contents, ops).1 == (out + [None]) + Run(contents, ops[1..]).1
    ensures ops[0].PopOp? && contents != [] ==>
      out + Run(contents, ops).1 == (out + [Some(contents[0])]) + Run(contents[1..], ops[1..]).1
  {}

  /** The linked queue refines the sequence over any mix of operations from any valid state. */
  method RunAll<T>(q: Queue<T>, ops: seq<Op<T>>) returns (out: seq<Option<T>>)
    requires q.Valid()
    modifies q, q.nodes
    ensures q.Valid()
    ensures (q.contents, out) == Run(old(q.contents), ops)
    ensures forall i :: 0 <= i < |q.nodes| ==> q.nodes[i] in old(q.nodes) || fresh(q.nodes[i])
  {
    out := [];
    var rest := ops;
    while rest != []
      invariant q.Valid()
      invariant Run(q.contents, rest).0 == Run(old(q.contents), ops).0
      invariant out + Run(q.contents, rest).1 == Run(old(q.contents), ops).1
      invariant forall i :: 0 <= i < |q.nodes| ==> q.nodes[i] in old(q.nodes) || fresh(q.nodes[i])
      decreases |rest|
    {
      ghost var before, sofar := q.contents, out;
      match rest[0] {
        case PushOp(data) =>
          var _ := q.Push(data);
        case PopOp =>
          var data := q.Pop();
          out := out + [data];
      }
      RunSnoc(before, rest, sofar);
      rest := rest[1..];
    }
    assert out + [] == out;
  }
}
