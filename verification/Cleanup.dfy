/**
  `cleanup` of server/server.c on the heap: linked queues of shared pointers to threads that own linked queues of
  messages. Every destructor call is made by the code that makes it; the log records those on messages.
 */
module Cleanup {
  import opened Bytes
  import opened Forum
  import opened LinkedQueue
  import opened ThreadObject
  import opened SharedPointer

  ghost function Elements<X>(q: seq<X>): (s: set<X>)
    ensures (forall x :: x in s ==> x in q) && (forall x :: x in q ==> x in s)
  {
    set x | x in q
  }

  ghost predicate NoTwice<X>(q: seq<X>) {
    q == [] || (q[0] !in q[1..] && NoTwice(q[1..]))
  }

  // ------------------------------------------------------------------ many shared threads

  /** The handles that share one cell. */
  ghost function Group(handles: set<SharedPtr>, cell: RefCount): set<SharedPtr>
    reads handles
  {
    set h | h in handles && h.refCount == cell
  }

  /** Every handle there is, grouped by cell; `counted` says which thread each cell counts. */
  ghost predicate AllShared(handles: set<SharedPtr>, cells: set<RefCount>, counted: map<RefCount, HeapThread>)
    reads handles, cells
  {
    && cells <= counted.Keys
    && (forall h :: h in handles ==> h.refCount != null && h.refCount in cells)
    && (forall c :: c in cells ==> Sharing(Group(handles, c), c, counted[c]))
  }

  /** For each handle in the queue the registry keeps another one on the same thread. */
  ghost predicate KeptBy(q: seq<SharedPtr>, keep: set<SharedPtr>)
    reads q, keep
  {
    forall p :: p in q ==> exists h :: h in keep && h.refCount == p.refCount
  }

  /** Deleting a handle that is not the last of its thread: the thread lives on. */
  method DropSpare(
    p: SharedPtr, ghost handles: set<SharedPtr>, ghost cells: set<RefCount>, ghost counted: map<RefCount, HeapThread>,
    log: Destructor<MessageKey>
  )
    requires AllShared(handles, cells, counted) && p in handles
    requires exists h :: h in handles && h != p && h.refCount == p.refCount
    modifies p, cells
    ensures AllShared(handles - {p}, cells, counted)
  {
    ghost var cell: RefCount := p.refCount;
    ghost var group := Group(handles, cell);
    ghost var other :| other in handles && other != p && other.refCount == p.refCount;
    assert other in group && p in group;
    var _ := SharedPointer.Delete(p, group, cell, counted[cell], log);
    forall c | c in cells ensures Sharing(Group(handles - {p}, c), c, counted[c]) {
      if c == cell {
        assert Group(handles - {p}, c) == group - {p};
      } else {
        assert Group(handles - {p}, c) == old(Group(handles, c));
      }
    }
  }

  lemma TurnOfQueue(due: seq<SharedPtr>, keep: set<SharedPtr>)
    requires due != [] && NoTwice(due) && KeptBy(due, keep) && due[0] !in keep
    ensures exists h :: h in keep && h != due[0] && h.refCount == due[0].refCount
    ensures NoTwice(due[1..]) && KeptBy(due[1..], keep) && due[0] !in due[1..]
    ensures forall p :: p in due <==> p == due[0] || p in due[1..]
  {
    assert due[0] in due;
    assert due == [due[0]] + due[1..];
  }

  /** One turn of `queue_delete` on a save queue. */
  method DropTurn(
    node: QueueNode<SharedPtr>, ghost rest: seq<QueueNode<SharedPtr>>, ghost due: seq<SharedPtr>,
    ghost keep: set<SharedPtr>, ghost left: set<SharedPtr>, ghost cells: set<RefCount>,
    ghost counted: map<RefCount, HeapThread>, log: Destructor<MessageKey>
  ) returns (next: QueueNode?<SharedPtr>)
    requires Chain(rest, due) && rest != [] && node == rest[0]
    requires AllShared(left, cells, counted) && keep <= left && due[0] in left && due[0] !in keep
    requires NoTwice(due) && KeptBy(due, keep)
    modifies node, due[0], cells
    ensures Freed(node) && node !in rest[1..]
    ensures next == if |rest| > 1 then rest[1] else null
    ensures Chain(rest[1..], due[1..]) && NoTwice(due[1..]) && KeptBy(due[1..], keep)
    ensures forall p :: p in due <==> p == due[0] || p in due[1..]
    ensures AllShared(left - {due[0]}, cells, counted)
    ensures due[0] !in due[1..]
  {
    hide AllShared, KeptBy, NoTwice;
    assert LinkedAt(rest, due, 0);
    TurnOfQueue(due, keep);
    ghost var keeper :| keeper in keep && keeper != due[0] && keeper.refCount == due[0].refCount;
    DropSpare(node.data.value, left, cells, counted, log);
    next := FreeNode(node, rest, due);
  }

  /** `queue_delete` on a save queue: its nodes and all its handles go, no thread does. */
  method DropQueue(
    q: Queue<SharedPtr>, ghost keep: set<SharedPtr>, ghost handles: set<SharedPtr>, ghost cells: set<RefCount>,
    ghost counted: map<RefCount, HeapThread>, log: Destructor<MessageKey>
  ) returns (ghost left: set<SharedPtr>)
    requires q.Valid() && q.destruct == SharedptrDelete
    requires AllShared(handles, cells, counted) && keep <= handles
    requires NoTwice(q.contents) && (forall p :: p in q.contents ==> p in handles && p !in keep)
    requires KeptBy(q.contents, keep)
    modifies q, Elements(q.nodes), Elements(q.contents), cells
    ensures AllShared(left, cells, counted)
    ensures forall p :: p in left <==> p in handles && p !in old(q.contents)
    ensures !q.live && forall n :: n in old(q.nodes) ==> Freed(n)
  {
    hide AllShared, KeptBy, NoTwice, Chain;
    ghost var all, whole, rest, due := q.nodes, q.contents, q.nodes, q.contents;
    left := handles;
    var node := q.first;
    SizeOfChain(q);
    while node != null
      invariant q.nodes == all && q.contents == whole && q.size == |rest| == |due|
      invariant node == if rest == [] then null else rest[0]
      invariant Chain(rest, due) && forall n :: n in rest ==> n in all
      invariant forall n :: n in all ==> n in rest || Freed(n)
      invariant NoTwice(due) && forall p :: p in due ==> p in whole && p !in keep
      invariant forall p :: p in left <==> p in handles && (p in whole ==> p in due)
      invariant AllShared(left, cells, counted) && KeptBy(due, keep)
      decreases |rest|
    {
      ghost var p := due[0];
      assert node in rest && p in due;
      node := DropTurn(node, rest, due, keep, left, cells, counted, log);
      left := left - {p};
      q.size := q.size - 1;
      rest, due := rest[1..], due[1..];
    }
    q.live := false;
  }

  lemma SizeOfChain(q: Queue<SharedPtr>)
    requires q.Valid()
    ensures |q.nodes| == |q.contents| == q.size
  {}

  // ------------------------------------------------------------------------ the registry

  /** Whole threads with these messages, each owning its part of `mine`, apart from each other and from outside. */
  ghost predicate Separate(
    ts: seq<HeapThread>, lists: seq<seq<MessageKey>>, mine: set<object>, outside: set<object>
  )
    reads mine
  {
    && |ts| == |lists| && mine !! outside
    && (ts != [] ==>
         && ts[0] in mine && ts[0].Repr <= mine && ts[0].Whole() && ts[0].Keys() == lists[0]
         && Separate(ts[1..], lists[1..], mine - ts[0].Repr, outside))
  }

  function Flatten<X>(lists: seq<seq<X>>): seq<X> {
    if lists == [] then [] else lists[0] + Flatten(lists[1..])
  }

  lemma {:induction false} ThreadsAreOwned(
    ts: seq<HeapThread>, lists: seq<seq<MessageKey>>, mine: set<object>, outside: set<object>
  )
    requires Separate(ts, lists, mine, outside)
    ensures forall i :: 0 <= i < |ts| ==> ts[i] in mine
    decreases |ts|
  {
    if ts != [] {
      ThreadsAreOwned(ts[1..], lists[1..], mine - ts[0].Repr, outside);
      assert forall i :: 1 <= i < |ts| ==> ts[i] == ts[1..][i - 1];
    }
  }

  /** The last handles: each alone on its cell and its thread. */
  ghost predicate Alone(due: seq<SharedPtr>, cells: seq<RefCount>, ts: seq<HeapThread>)
    reads due, cells
  {
    && |due| == |cells| == |ts|
    && forall i :: 0 <= i < |due| ==> Sharing({due[i]}, cells[i], ts[i])
  }

  ghost predicate AllIn(q: seq<object>, s: set<object>) {
    forall i :: 0 <= i < |q| ==> q[i] in s
  }

  method DeleteAlone(p: SharedPtr, ghost cell: RefCount, ghost t: HeapThread, log: Destructor<MessageKey>)
    requires Sharing({p}, cell, t) && t.Whole() && log !in t.Repr && p !in t.Repr && cell !in t.Repr
    modifies p, cell, t.Repr, log
    ensures !t.live && log.destroyed == old(log.destroyed) + old(t.Keys())
  {
    assert HandleOn(p, cell, t);
    var _ := SharedPointer.Delete(p, {p}, cell, t, log);
  }

  /** What is left of the registry while it is deleted: the last handles, on threads that nothing else shares. */
  ghost predicate LastHandles(
    due: seq<SharedPtr>, cells: seq<RefCount>, ts: seq<HeapThread>, lists: seq<seq<MessageKey>>, mine: set<object>,
    outside: set<object>
  )
    reads due, cells, mine
  {
    && Alone(due, cells, ts) && NoTwice(due) && NoTwice(cells) && AllIn(due, outside) && AllIn(cells, outside)
    && Separate(ts, lists, mine, outside)
  }

  lemma TurnOfRegistry(
    due: seq<SharedPtr>, cells: seq<RefCount>, ts: seq<HeapThread>, lists: seq<seq<MessageKey>>, mine: set<object>,
    outside: set<object>
  )
    requires due != [] && LastHandles(due, cells, ts, lists, mine, outside)
    ensures |ts| == |lists| == |cells| == |due| && Sharing({due[0]}, cells[0], ts[0])
    ensures due[0] in outside && cells[0] in outside && due[0] !in due[1..] && cells[0] !in cells[1..]
    ensures ts[0] in ts[0].Repr && ts[0].Whole() && ts[0].Keys() == lists[0] && ts[0].Repr <= mine && mine !! outside
    ensures LastHandles(due[1..], cells[1..], ts[1..], lists[1..], mine - ts[0].Repr, outside)
    ensures forall i :: 0 <= i < |ts[1..]| ==> ts[1..][i] in mine - ts[0].Repr
  {
    ThreadsAreOwned(ts[1..], lists[1..], mine - ts[0].Repr, outside);
  }

  /** The last handle on a thread goes: thread, cell and messages die, and the other threads are as they were. */
  method DropLast(
    p: SharedPtr, ghost due: seq<SharedPtr>, ghost cells: seq<RefCount>, ghost ts: seq<HeapThread>,
    ghost lists: seq<seq<MessageKey>>, ghost mine: set<object>, log: Destructor<MessageKey>,
    ghost outside: set<object>
  ) returns (ghost others: set<object>)
    requires LastHandles(due, cells, ts, lists, mine, outside) && due != [] && p == due[0] && log in outside
    requires |cells| == |due| == |ts| == |lists|
    modifies p, cells[0], mine, log
    ensures LastHandles(due[1..], cells[1..], ts[1..], lists[1..], others, outside)
    ensures log.destroyed == old(log.destroyed) + lists[0]
    ensures others <= mine && !ts[0].live && ts[0] !in others
  {
    TurnOfRegistry(due, cells, ts, lists, mine, outside);
    others := mine - ts[0].Repr;
    hide LastHandles, HeapThread.Whole, HeapThread.Keys, Sharing;
    DeleteAlone(p, cells[0], ts[0], log);
  }

  lemma FirstLink<T>(nodes: seq<QueueNode<T>>, contents: seq<T>)
    requires Chain(nodes, contents) && nodes != []
    ensures |contents| == |nodes| && nodes[0].data == Some(contents[0])
  {
    assert LinkedAt(nodes, contents, 0);
  }

  lemma SameSizes(
    due: seq<SharedPtr>, cells: seq<RefCount>, ts: seq<HeapThread>, lists: seq<seq<MessageKey>>, mine: set<object>,
    outside: set<object>
  )
    requires LastHandles(due, cells, ts, lists, mine, outside)
    ensures |due| == |cells| == |ts| == |lists| && mine !! outside
    ensures due != [] ==> due[0] in outside && cells[0] in outside
  {}

  lemma TailIn(q: seq<object>, s: set<object>)
    requires AllIn(q, s) && q != []
    ensures AllIn(q[1..], s) && q[0] in s
  {}

  /** Nodes, handles, cells, threads and messages that `queue_delete` has still to come to. */
  ghost predicate StillThere(
    rest: seq<QueueNode<SharedPtr>>, due: seq<SharedPtr>, cells: seq<RefCount>, ts: seq<HeapThread>,
    lists: seq<seq<MessageKey>>, mine: set<object>, outside: set<object>
  )
    reads rest, due, cells, mine
  {
    Chain(rest, due) && AllIn(rest, outside) && LastHandles(due, cells, ts, lists, mine, outside)
  }

  lemma Folded(
    rest: seq<QueueNode<SharedPtr>>, due: seq<SharedPtr>, cells: seq<RefCount>, ts: seq<HeapThread>,
    lists: seq<seq<MessageKey>>, mine: set<object>, outside: set<object>
  )
    requires Chain(rest, due) && AllIn(rest, outside) && LastHandles(due, cells, ts, lists, mine, outside)
    ensures StillThere(rest, due, cells, ts, lists, mine, outside)
  {}

  lemma NextOne(
    rest: seq<QueueNode<SharedPtr>>, due: seq<SharedPtr>, cells: seq<RefCount>, ts: seq<HeapThread>,
    lists: seq<seq<MessageKey>>, mine: set<object>, outside: set<object>
  )
    requires StillThere(rest, due, cells, ts, lists, mine, outside) && rest != []
    ensures |rest| == |due| == |cells| == |ts| == |lists| && mine !! outside
    ensures rest[0] in outside && due[0] in outside && cells[0] in outside
    ensures rest[0].data == Some(due[0])
    ensures Flatten(lists) == lists[0] + Flatten(lists[1..])
    ensures Chain(rest, due) && AllIn(rest[1..], outside) && LastHandles(due, cells, ts, lists, mine, outside)
    ensures forall i :: 0 <= i < |rest| ==> rest[i] in outside
  {
    FirstLink(rest, due);
    TailIn(rest, outside);
    SameSizes(due, cells, ts, lists, mine, outside);
  }

  lemma NoneLeft(
    rest: seq<QueueNode<SharedPtr>>, due: seq<SharedPtr>, cells: seq<RefCount>, ts: seq<HeapThread>,
    lists: seq<seq<MessageKey>>, mine: set<object>, outside: set<object>
  )
    requires StillThere(rest, due, cells, ts, lists, mine, outside) && rest == []
    ensures Flatten(lists) == [] && ts == []
  {}

  /** These threads are gone, and are no part of what is left. */
  ghost predicate Dead(gone: seq<HeapThread>, mine: set<object>)
    reads gone
  {
    forall t :: t in gone ==> !t.live && t !in mine
  }

  lemma OneMoreDead(gone: seq<HeapThread>, t: HeapThread, mine: set<object>)
    requires Dead(gone, mine) && !t.live && t !in mine
    ensures Dead(gone + [t], mine)
  {}

  lemma FewerLeft(gone: seq<HeapThread>, mine: set<object>, others: set<object>)
    requires Dead(gone, mine) && others <= mine
    ensures Dead(gone, others)
  {}

  lemma AllDead(gone: seq<HeapThread>, mine: set<object>)
    requires Dead(gone, mine)
    ensures forall t :: t in gone ==> !t.live
  {}

  lemma ApartFromDead(gone: seq<HeapThread>, mine: set<object>)
    requires Dead(gone, mine)
    ensures forall i :: 0 <= i < |gone| ==> gone[i] !in mine
  {}

  ghost predicate Split<X>(a: seq<X>, b: seq<X>, whole: seq<X>) {
    a + b == whole
  }

  lemma SplitStep<X>(a: seq<X>, b: seq<X>, whole: seq<X>)
    requires Split(a, b, whole) && b != []
    ensures Split(a + [b[0]], b[1..], whole)
  {}

  lemma SplitEnd<X>(a: seq<X>, b: seq<X>, whole: seq<X>)
    requires Split(a, b, whole) && b == []
    ensures a == whole
  {}

  /** One turn of `queue_delete` on the registry. */
  method LastTurn(
    q: Queue<SharedPtr>, node: QueueNode<SharedPtr>, ghost rest: seq<QueueNode<SharedPtr>>, ghost due: seq<SharedPtr>,
    ghost cells: seq<RefCount>, ghost ts: seq<HeapThread>, ghost lists: seq<seq<MessageKey>>,
    ghost mine: set<object>, ghost gone: seq<HeapThread>, log: Destructor<MessageKey>, ghost outside: set<object>
  ) returns (next: QueueNode?<SharedPtr>, ghost others: set<object>)
    requires StillThere(rest, due, cells, ts, lists, mine, outside) && rest != [] && node == rest[0] && log in outside
    requires |rest| == |due| == |cells| == |ts| == |lists| == q.size && q in outside && Dead(gone, mine)
    modifies q`size, node, due[0], cells[0], mine, log
    ensures q.size == old(q.size) - 1
    ensures Freed(node) && next == if |rest| > 1 then rest[1] else null
    ensures others <= mine && StillThere(rest[1..], due[1..], cells[1..], ts[1..], lists[1..], others, outside)
    ensures log.destroyed + Flatten(lists[1..]) == old(log.destroyed) + Flatten(lists)
    ensures Dead(gone + [ts[0]], others)
  {
    hide *;
    ApartFromDead(gone, mine);
    NextOne(rest, due, cells, ts, lists, mine, outside);
    others := DropLast(node.data.value, due, cells, ts, lists, mine, log, outside);
    next := FreeNode(node, rest, due);
    q.size := q.size - 1;
    FewerLeft(gone, mine, others);
    OneMoreDead(gone, ts[0], others);
    Folded(rest[1..], due[1..], cells[1..], ts[1..], lists[1..], others, outside);
  }

  /** `queue_delete` on the registry once it holds the only handles: every thread dies once, in registry order. */
  method DropRegistry(
    q: Queue<SharedPtr>, ghost cells: seq<RefCount>, ghost ts: seq<HeapThread>, ghost lists: seq<seq<MessageKey>>,
    ghost mine: set<object>, log: Destructor<MessageKey>, ghost outside: set<object>
  )
    requires q.Valid() && q.destruct == SharedptrDelete && q in outside && AllIn(q.nodes, outside)
    requires LastHandles(q.contents, cells, ts, lists, mine, outside) && log in outside
    modifies outside, mine
    ensures log.destroyed == old(log.destroyed) + Flatten(lists) && !q.live
    ensures forall t :: t in ts ==> !t.live
  {
    ghost var gone: seq<HeapThread> := [];
    ghost var rest, due, left, more, keys, others := q.nodes, q.contents, cells, ts, lists, mine;
    var node := q.first;
    SizeOfChain(q);
    assert StillThere(rest, due, left, more, keys, others, outside) && Dead(gone, others) && Split(gone, more, ts);
    hide *;
    while node != null
      invariant node == if rest == [] then null else rest[0]
      invariant q.size == |rest|
      invariant others <= mine && StillThere(rest, due, left, more, keys, others, outside)
      invariant Split(gone, more, ts) && Dead(gone, others)
      invariant log.destroyed + Flatten(keys) == old(log.destroyed) + Flatten(lists)
      decreases |rest|
    {
      NextOne(rest, due, left, more, keys, others, outside);
      node, others := LastTurn(q, node, rest, due, left, more, keys, others, gone, log, outside);
      SplitStep(gone, more, ts);
      gone := gone + [more[0]];
      rest, due, left, more, keys := rest[1..], due[1..], left[1..], more[1..], keys[1..];
    }
    NoneLeft(rest, due, left, more, keys, others, outside);
    q.live := false;
    SplitEnd(gone, more, ts);
    AllDead(gone, others);
  }

  // --------------------------------------------------------------------------- cleanup

  /** A queue of shared pointers: the queue, its nodes and its handles lie in `part`. */
  ghost predicate HandleQueue(q: Queue<SharedPtr>, part: set<object>)
    reads part
  {
    && q in part && AllIn(q.nodes, part) && AllIn(q.contents, part)
    && q.Valid() && q.destruct == SharedptrDelete && NoTwice(q.contents)
  }

  /** A save queue: each of its handles has another one in the registry. */
  ghost predicate SaveQueue(q: Queue<SharedPtr>, keep: set<SharedPtr>, part: set<object>)
    reads part, keep
  {
    HandleQueue(q, part) && KeptBy(q.contents, keep)
  }

  /** One cell a handle. */
  ghost predicate OnCells(due: seq<SharedPtr>, cells: seq<RefCount>)
    reads Elements(due)
  {
    |due| == |cells| && forall i :: 0 <= i < |due| ==> due[i].refCount == cells[i]
  }

  ghost predicate Counts(cells: seq<RefCount>, counted: map<RefCount, HeapThread>, ts: seq<HeapThread>) {
    |ts| == |cells| && forall i :: 0 <= i < |cells| ==> cells[i] in counted && ts[i] == counted[cells[i]]
  }

  lemma AloneInRegistry(
    due: seq<SharedPtr>, handles: set<SharedPtr>, cells: seq<RefCount>, all: set<RefCount>,
    counted: map<RefCount, HeapThread>, ts: seq<HeapThread>
  )
    requires AllShared(handles, all, counted) && handles == Elements(due) && NoTwice(cells)
    requires OnCells(due, cells) && all == Elements(cells) && Counts(cells, counted, ts)
    ensures Alone(due, cells, ts)
  {
    forall i | 0 <= i < |due| ensures Sharing({due[i]}, cells[i], ts[i]) {
      forall h | h in Group(handles, cells[i]) ensures h == due[i] {
        var j :| 0 <= j < |due| && due[j] == h;
        DifferentPlaces(cells, i, j);
      }
      assert Group(handles, cells[i]) == {due[i]};
    }
  }

  lemma {:induction false} DifferentPlaces<X>(q: seq<X>, i: nat, j: nat)
    requires NoTwice(q) && i < |q| && j < |q| && q[i] == q[j]
    ensures i == j
    decreases |q|
  {
    if i > 0 && j > 0 {
      DifferentPlaces(q[1..], i - 1, j - 1);
    }
  }

  lemma QueueIn(q: Queue<SharedPtr>, part: set<object>)
    requires HandleQueue(q, part)
    ensures Elements(q.contents) <= part && Elements(q.nodes) <= part
    ensures forall p :: p in q.contents ==> p in part
    ensures forall n :: n in q.nodes ==> n in part
    ensures q in part && q.Valid() && q.destruct == SharedptrDelete && NoTwice(q.contents)
  {}

  /** One save queue goes; what lies elsewhere, and the threads, are as they were. */
  method DropSaveQueue(
    q: Queue<SharedPtr>, ghost part: set<object>, ghost keep: set<SharedPtr>, ghost handles: set<SharedPtr>,
    ghost cells: set<RefCount>, ghost counted: map<RefCount, HeapThread>, log: Destructor<MessageKey>
  ) returns (ghost left: set<SharedPtr>)
    requires SaveQueue(q, keep, part) && AllShared(handles, cells, counted)
    requires keep <= handles && Elements(q.contents) <= handles && part !! keep
    modifies part, cells
    ensures AllShared(left, cells, counted) && left == handles - old(Elements(q.contents))
    ensures !q.live
  {
    QueueIn(q, part);
    hide AllShared, KeptBy, NoTwice, Chain, AllIn;
    left := DropQueue(q, keep, handles, cells, counted, log);
  }

  /** The first two save queues. */
  method DropInfoAndHistory(
    infoQ: Queue<SharedPtr>, historyQ: Queue<SharedPtr>, ghost infos: set<object>, ghost histories: set<object>,
    ghost keep: set<SharedPtr>, ghost others: set<SharedPtr>, ghost cells: set<RefCount>,
    ghost counted: map<RefCount, HeapThread>, log: Destructor<MessageKey>
  )
    requires SaveQueue(infoQ, keep, infos) && SaveQueue(historyQ, keep, histories) && keep <= others
    requires AllShared(Elements(infoQ.contents) + Elements(historyQ.contents) + others, cells, counted)
    requires infos !! histories !! others && (infos + histories) !! cells
    modifies infos, histories, cells
    ensures AllShared(others, cells, counted)
  {
    ghost var h := Elements(historyQ.contents);
    QueueIn(infoQ, infos);
    QueueIn(historyQ, histories);
    hide *;
    ghost var left := DropSaveQueue(infoQ, infos, keep, Elements(infoQ.contents) + h + others, cells, counted, log);
    assert left == h + others;
    left := DropSaveQueue(historyQ, histories, keep, left, cells, counted, log);
    assert left == others;
  }

  /** The messages that wait for their writer, and the last save queue. */
  method DropMessagesAndAuthors(
    msgQ: Queue<MessageKey>, authorQ: Queue<SharedPtr>, ghost queued: set<object>, ghost authors: set<object>,
    ghost keep: set<SharedPtr>, ghost cells: set<RefCount>, ghost counted: map<RefCount, HeapThread>,
    log: Destructor<MessageKey>
  )
    requires SaveQueue(authorQ, keep, authors) && AllShared(Elements(authorQ.contents) + keep, cells, counted)
    requires msgQ in queued && AllIn(msgQ.nodes, queued) && msgQ.Valid() && msgQ.destruct == LemessageDelete
    requires queued !! authors !! keep !! {log} && (queued + authors + {log}) !! cells
    modifies queued, authors, cells, log
    ensures AllShared(keep, cells, counted) && log.destroyed == old(log.destroyed + msgQ.contents)
  {
    QueueIn(authorQ, authors);
    assert forall n :: n in msgQ.nodes ==> n in queued;
    hide *;
    msgQ.Delete(log);
    ghost var left := DropSaveQueue(authorQ, authors, keep, Elements(authorQ.contents) + keep, cells, counted, log);
    assert left == keep;
  }

  lemma LastOnes(
    q: Queue<SharedPtr>, part: set<object>, cells: seq<RefCount>, ts: seq<HeapThread>, lists: seq<seq<MessageKey>>,
    mine: set<object>, outside: set<object>
  )
    requires HandleQueue(q, part) && part <= outside && NoTwice(cells) && AllIn(cells, outside)
    requires Alone(q.contents, cells, ts) && Separate(ts, lists, mine, outside)
    ensures LastHandles(q.contents, cells, ts, lists, mine, outside) && AllIn(q.nodes, outside) && q in outside
  {}

  /** The registry, which now holds every handle there is. */
  method DropLastHandles(
    registry: Queue<SharedPtr>, ghost registered: set<object>, ghost cells: seq<RefCount>,
    ghost counted: map<RefCount, HeapThread>, ghost ts: seq<HeapThread>, ghost lists: seq<seq<MessageKey>>,
    ghost mine: set<object>, log: Destructor<MessageKey>
  )
    requires HandleQueue(registry, registered)
    requires AllShared(Elements(registry.contents), Elements(cells), counted)
    requires OnCells(registry.contents, cells) && Counts(cells, counted, ts) && NoTwice(cells)
    requires Separate(ts, lists, mine, registered + Elements(cells) + {log})
    modifies registered, Elements(cells), mine, log
    ensures log.destroyed == old(log.destroyed) + Flatten(lists)
    ensures forall t :: t in ts ==> !t.live
  {
    ghost var outside := registered + Elements(cells) + {log};
    QueueIn(registry, registered);
    assert AllIn(cells, outside);
    hide *;
    AloneInRegistry(registry.contents, Elements(registry.contents), cells, Elements(cells), counted, ts);
    LastOnes(registry, registered, cells, ts, lists, mine, outside);
    DropRegistry(registry, cells, ts, lists, mine, log, outside);
  }

  /** The messages that wait for their writer, the last save queue and the registry. */
  method DropTheRest(
    msgQ: Queue<MessageKey>, authorQ: Queue<SharedPtr>, registry: Queue<SharedPtr>, log: Destructor<MessageKey>,
    ghost queued: set<object>, ghost authors: set<object>, ghost registered: set<object>, ghost cells: seq<RefCount>,
    ghost counted: map<RefCount, HeapThread>, ghost ts: seq<HeapThread>, ghost lists: seq<seq<MessageKey>>,
    ghost mine: set<object>
  )
    requires queued !! authors !! {log} && (queued + authors + {log}) !! Elements(cells)
    requires (queued + authors + {log} + Elements(cells)) !! (registered + mine)
    requires HandleQueue(registry, registered) && SaveQueue(authorQ, Elements(registry.contents), authors)
    requires AllShared(Elements(authorQ.contents) + Elements(registry.contents), Elements(cells), counted)
    requires OnCells(registry.contents, cells) && Counts(cells, counted, ts) && NoTwice(cells)
    requires msgQ in queued && AllIn(msgQ.nodes, queued) && msgQ.Valid() && msgQ.destruct == LemessageDelete
    requires Separate(ts, lists, mine, registered + Elements(cells) + {log})
    modifies queued, authors, registered, Elements(cells), mine, log
    ensures log.destroyed == old(log.destroyed + msgQ.contents) + Flatten(lists)
    ensures forall t :: t in ts ==> !t.live
  {
    ghost var keep, all := Elements(registry.contents), Elements(cells);
    QueueIn(registry, registered);
    hide *;
    DropMessagesAndAuthors(msgQ, authorQ, queued, authors, keep, all, counted, log);
    DropLastHandles(registry, registered, cells, counted, ts, lists, mine, log);
  }

  /** The five queues, the cells, the threads and the log lie apart in memory. */
  ghost predicate FarApart(
    infos: set<object>, histories: set<object>, queued: set<object>, authors: set<object>, registered: set<object>,
    cells: set<RefCount>, mine: set<object>, log: Destructor<MessageKey>
  ) {
    infos !! histories !! queued !! authors !! registered !! cells !! mine !! {log}
  }

  lemma Far(
    infos: set<object>, histories: set<object>, queued: set<object>, authors: set<object>, registered: set<object>,
    cells: set<RefCount>, mine: set<object>, log: Destructor<MessageKey>
  )
    requires FarApart(infos, histories, queued, authors, registered, cells, mine, log)
    ensures infos !! histories && (infos + histories + cells) !! (authors + registered + queued + mine + {log})
    ensures (infos + histories) !! cells && queued !! authors !! {log}
    ensures (queued + authors + cells + {log}) !! (registered + mine)
    ensures (queued + authors + {log}) !! cells
  {}

  lemma InBoth(a: Queue<SharedPtr>, b: Queue<SharedPtr>, partA: set<object>, partB: set<object>)
    requires HandleQueue(a, partA) && HandleQueue(b, partB)
    ensures Elements(a.contents) + Elements(b.contents) <= partA + partB
  {}

  /**
    `cleanup`, with no handle held anywhere else: the save queues with whatever they still hold and the registry last.
    Every message destructor call is in the log: first the queued messages, then those of each thread in turn.
   */
  method CleanUp(
    infoQ: Queue<SharedPtr>, historyQ: Queue<SharedPtr>, msgQ: Queue<MessageKey>, authorQ: Queue<SharedPtr>,
    registry: Queue<SharedPtr>, log: Destructor<MessageKey>, ghost infos: set<object>, ghost histories: set<object>,
    ghost queued: set<object>, ghost authors: set<object>, ghost registered: set<object>,
    ghost cells: seq<RefCount>, ghost counted: map<RefCount, HeapThread>, ghost ts: seq<HeapThread>,
    ghost lists: seq<seq<MessageKey>>, ghost mine: set<object>
  )
    requires FarApart(infos, histories, queued, authors, registered, Elements(cells), mine, log)
    requires HandleQueue(registry, registered)
    requires SaveQueue(infoQ, Elements(registry.contents), infos)
    requires SaveQueue(historyQ, Elements(registry.contents), histories)
    requires SaveQueue(authorQ, Elements(registry.contents), authors)
    requires AllShared(Elements(infoQ.contents) + Elements(historyQ.contents)
                         + (Elements(authorQ.contents) + Elements(registry.contents)), Elements(cells), counted)
    requires OnCells(registry.contents, cells) && Counts(cells, counted, ts) && NoTwice(cells)
    requires msgQ in queued && AllIn(msgQ.nodes, queued) && msgQ.Valid() && msgQ.destruct == LemessageDelete
    requires Separate(ts, lists, mine, registered + Elements(cells) + {log})
    modifies infos, histories, queued, authors, registered, Elements(cells), mine, log
    ensures log.destroyed == old(log.destroyed + msgQ.contents) + Flatten(lists)
    ensures forall t :: t in ts ==> !t.live
  {
    ghost var keep, all := Elements(registry.contents), Elements(cells);
    ghost var rest := Elements(authorQ.contents) + keep;
    InBoth(authorQ, registry, authors, registered);
    QueueIn(registry, registered);
    Far(infos, histories, queued, authors, registered, all, mine, log);
    hide *;
    DropInfoAndHistory(infoQ, historyQ, infos, histories, keep, rest, all, counted, log);
    DropTheRest(msgQ, authorQ, registry, log, queued, authors, registered, cells, counted, ts, lists, mine);
  }
}
