/** `cleanup` at the end of a run: what the counting and the simulation promise is what the heap teardown needs. */
module Teardown {
  import opened Bytes
  import opened Forum
  import opened Store
  import opened Eager
  import opened LinkedQueue
  import opened ThreadObject
  import opened SharedPointer
  import opened Cleanup
  import opened MessageCleanup
  import Ownership

  /** The handles in a queue are on the threads with these ids; each thread has one cell. */
  ghost predicate On(
    q: seq<SharedPtr>, ids: seq<u64>, cellOf: map<u64, RefCount>, counted: map<RefCount, HeapThread>
  )
    reads Elements(q)
  {
    && |q| == |ids|
    && forall i :: 0 <= i < |q| ==>
         && ids[i] in cellOf && cellOf[ids[i]] in counted
         && HandleOn(q[i], cellOf[ids[i]], counted[cellOf[ids[i]]])
  }

  /** The cell of each registered thread, alive and holding its count. */
  ghost predicate Counting(
    registry: seq<u64>, refs: Ownership.Held, cells: seq<RefCount>, cellOf: map<u64, RefCount>,
    counted: map<RefCount, HeapThread>
  )
    reads Elements(cells)
  {
    && |cells| == |registry| && NoTwice(cells)
    && forall i :: 0 <= i < |cells| ==>
         && registry[i] in cellOf && cellOf[registry[i]] == cells[i] && cells[i] in counted
         && cells[i].live && cells[i].value == refs[registry[i]]
  }

  lemma JoinedElements<X>(a: seq<X>, b: seq<X>)
    ensures Elements(a + b) == Elements(a) + Elements(b)
  {
    forall x ensures x in a + b <==> x in a || x in b {}
  }

  lemma {:induction false} JoinedNoTwice<X>(a: seq<X>, b: seq<X>)
    requires NoTwice(a) && NoTwice(b) && Elements(a) !! Elements(b)
    ensures NoTwice(a + b)
    decreases |a|
  {
    if a == [] {
      assert a + b == b;
    } else {
      forall x | x in a[1..] ensures x in a {}
      JoinedNoTwice(a[1..], b);
      assert (a + b)[1..] == a[1..] + b;
      assert a[0] in Elements(a);
    }
  }

  lemma JoinedOn(
    a: seq<SharedPtr>, b: seq<SharedPtr>, ids: seq<u64>, more: seq<u64>, cellOf: map<u64, RefCount>,
    counted: map<RefCount, HeapThread>
  )
    requires On(a, ids, cellOf, counted) && On(b, more, cellOf, counted)
    requires NoTwice(a) && NoTwice(b) && Elements(a) !! Elements(b)
    ensures On(a + b, ids + more, cellOf, counted) && NoTwice(a + b) && Elements(a + b) == Elements(a) + Elements(b)
  {
    JoinedNoTwice(a, b);
    JoinedElements(a, b);
  }

  lemma OneMore(h: SharedPtr, q: seq<SharedPtr>, c: RefCount)
    requires h !in q
    ensures |Group(Elements([h] + q), c)| == |Group(Elements(q), c)| + if h.refCount == c then 1 else 0
  {
    JoinedElements([h], q);
    var rest := Group(Elements(q), c);
    assert Group(Elements([h] + q), c) == if h.refCount == c then rest + {h} else rest;
  }

  /** As many handles on a thread's cell as the queues hold its id. */
  lemma {:induction false} GroupSize(
    q: seq<SharedPtr>, ids: seq<u64>, cellOf: map<u64, RefCount>, counted: map<RefCount, HeapThread>, id: u64
  )
    requires On(q, ids, cellOf, counted) && NoTwice(q) && id in cellOf
    requires forall x :: x in ids && x in cellOf && cellOf[x] == cellOf[id] ==> x == id
    ensures |Group(Elements(q), cellOf[id])| == multiset(ids)[id]
    decreases |q|
  {
    var c := cellOf[id];
    if q == [] {
      assert Group(Elements(q), c) == {};
    } else {
      assert q == [q[0]] + q[1..] && ids == [ids[0]] + ids[1..];
      GroupSize(q[1..], ids[1..], cellOf, counted, id);
      assert HandleOn(q[0], cellOf[ids[0]], counted[cellOf[ids[0]]]);
      assert ids[0] in ids;
      OneMore(q[0], q[1..], c);
      assert multiset(ids) == multiset{ids[0]} + multiset(ids[1..]);
    }
  }

  lemma OneCellAThread(
    registry: seq<u64>, refs: Ownership.Held, cells: seq<RefCount>, cellOf: map<u64, RefCount>,
    counted: map<RefCount, HeapThread>, x: u64, y: u64
  )
    requires Counting(registry, refs, cells, cellOf, counted)
    requires x in registry && y in registry && cellOf[x] == cellOf[y]
    ensures x == y
  {
    var i :| 0 <= i < |registry| && registry[i] == x;
    var j :| 0 <= j < |registry| && registry[j] == y;
    DifferentPlaces(cells, i, j);
  }

  /** Counters that count the queued ids count the handles in the queues. */
  lemma CountedIsShared(
    q: seq<SharedPtr>, ids: seq<u64>, registry: seq<u64>, refs: Ownership.Held, cells: seq<RefCount>,
    cellOf: map<u64, RefCount>, counted: map<RefCount, HeapThread>
  )
    requires On(q, ids, cellOf, counted) && NoTwice(q) && Counting(registry, refs, cells, cellOf, counted)
    requires refs == multiset(ids) && forall id :: id in ids ==> id in registry
    ensures AllShared(Elements(q), Elements(cells), counted)
  {
    forall h | h in q ensures h.refCount != null && h.refCount in cells {
      var i :| 0 <= i < |q| && q[i] == h;
      assert HandleOn(q[i], cellOf[ids[i]], counted[cellOf[ids[i]]]);
      assert ids[i] in ids;
      var j :| 0 <= j < |registry| && registry[j] == ids[i];
    }
    forall c | c in cells ensures Sharing(Group(Elements(q), c), c, counted[c]) {
      var k :| 0 <= k < |cells| && cells[k] == c;
      var id := registry[k];
      forall x | x in ids && x in cellOf && cellOf[x] == cellOf[id] ensures x == id {
        OneCellAThread(registry, refs, cells, cellOf, counted, x, id);
      }
      GroupSize(q, ids, cellOf, counted, id);
      forall h | h in Group(Elements(q), c) ensures HandleOn(h, c, counted[c]) {
        var i :| 0 <= i < |q| && q[i] == h;
        assert HandleOn(q[i], cellOf[ids[i]], counted[cellOf[ids[i]]]);
      }
    }
  }

  /**
    `sharedptr_delete` on the heap and as one operation of an agent: the count is what is left of the handles, and the
    thread's id is recorded as destroyed if and only if its last handle went and its destructor ran.
   */
  method DeleteAsCounted(
    p: SharedPtr, ghost handles: set<SharedPtr>, ghost cell: RefCount, ghost data: HeapThread,
    log: Destructor<MessageKey>, ghost h: Ownership.Handles, ghost held: Ownership.Held, ghost id: u64
  )
    requires p in handles && Sharing(handles, cell, data) && h.refs[id] == |handles| && data.live
    requires handles == {p} ==> data.Whole() && log !in data.Repr && p !in data.Repr && cell !in data.Repr
    modifies p, p.refCount
    modifies if handles == {p} then data.Repr + {log} else {}
    ensures !p.live
    ensures var h' := Ownership.Do(h, held, Ownership.Delete(id)).0;
      && h'.refs == h.refs - multiset{id} && h'.refs[id] == |handles - {p}|
      && (if data.live then h'.destroyed == h.destroyed && Sharing(handles - {p}, cell, data)
          else h'.destroyed == h.destroyed + multiset{id} && handles == {p})
  {
    if handles != {p} {
      NotTheLast(p, handles);
    }
    assert HandleOn(p, cell, data);
    var _ := SharedPointer.Delete(p, handles, cell, data, log);
  }

  lemma NotTheLast<T>(p: T, s: set<T>)
    requires p in s && s != {p}
    ensures |s| >= 2
  {
    assert s - {p} != {};
    assert |s - {p}| == |s| - 1;
  }

  /** The registry still holds every thread that a save queue holds. */
  lemma RegistryKeeps(
    q: seq<SharedPtr>, ids: seq<u64>, keep: seq<SharedPtr>, registry: seq<u64>, cellOf: map<u64, RefCount>,
    counted: map<RefCount, HeapThread>
  )
    requires On(q, ids, cellOf, counted) && On(keep, registry, cellOf, counted)
    requires forall id :: id in ids ==> id in registry
    ensures KeptBy(q, Elements(keep))
  {
    forall p | p in q ensures exists h :: h in Elements(keep) && h.refCount == p.refCount {
      var i :| 0 <= i < |q| && q[i] == p;
      assert ids[i] in ids;
      var j :| 0 <= j < |registry| && registry[j] == ids[i];
      assert HandleOn(q[i], cellOf[ids[i]], counted[cellOf[ids[i]]]);
      assert HandleOn(keep[j], cellOf[registry[j]], counted[cellOf[registry[j]]]);
      assert keep[j] in Elements(keep);
    }
  }

  /** The ids in the four queues of handles. */
  function AllStored(h: Ownership.Handles): seq<u64> {
    h.infoQ + h.historyQ + (h.authorQ + h.registry)
  }

  lemma CountOfFour(h: Ownership.Handles, id: u64)
    ensures multiset(AllStored(h))[id]
         == multiset(h.registry)[id] + multiset(h.infoQ)[id] + multiset(h.authorQ)[id] + multiset(h.historyQ)[id]
  {
    assert multiset(AllStored(h)) == multiset(h.infoQ + h.historyQ) + multiset(h.authorQ + h.registry);
  }

  lemma QueuedIsRegistered(h: Ownership.Handles, id: u64)
    requires Ownership.StoredAreRegistered(h) && multiset(AllStored(h))[id] > 0
    ensures id in h.registry
  {
    CountOfFour(h, id);
    assert id in Ownership.Stored(h);
    assert id in multiset(h.registry);
  }

  /** When every agent is idle the counters are the ids in the four queues, all of them registered. */
  lemma IdleIsQueued(w: Ownership.World)
    requires Ownership.Sound(w) && Ownership.Idle(w)
    ensures w.h.refs == multiset(AllStored(w.h)) && forall id :: id in AllStored(w.h) ==> id in w.h.registry
  {
    var all := AllStored(w.h);
    assert Ownership.StoredAreRegistered(w.h);
    hide *;
    forall id ensures w.h.refs[id] == multiset(all)[id] {
      Ownership.IdleCounts(w, id);
      CountOfFour(w.h, id);
    }
    forall id | id in all ensures id in w.h.registry {
      assert id in multiset(all);
      QueuedIsRegistered(w.h, id);
    }
  }

  function ListsOf(ts: seq<Thread>): seq<seq<MessageKey>> {
    seq(|ts|, k requires 0 <= k < |ts| => KeysOf(ts[k]))
  }

  lemma {:induction false} FlattenedLists(ts: seq<Thread>)
    ensures Flatten(ListsOf(ts)) == KeysOfAll(ts)
    decreases |ts|
  {
    if ts != [] {
      FlattenedLists(ts[1..]);
      assert ListsOf(ts)[1..] == ListsOf(ts[1..]);
    }
  }

  ghost predicate QueueHolds(
    q: Queue<SharedPtr>, part: set<object>, ids: seq<u64>, cellOf: map<u64, RefCount>,
    counted: map<RefCount, HeapThread>
  )
    reads part
  {
    HandleQueue(q, part) && On(q.contents, ids, cellOf, counted)
  }

  lemma QueueIsSaveQueue(
    q: Queue<SharedPtr>, part: set<object>, ids: seq<u64>, r: Queue<SharedPtr>, registered: set<object>,
    registry: seq<u64>, cellOf: map<u64, RefCount>, counted: map<RefCount, HeapThread>
  )
    requires QueueHolds(q, part, ids, cellOf, counted) && QueueHolds(r, registered, registry, cellOf, counted)
    requires forall id :: id in ids ==> id in registry
    ensures SaveQueue(q, Elements(r.contents), part)
  {
    RegistryKeeps(q.contents, ids, r.contents, registry, cellOf, counted);
  }

  lemma EachOnItsCell(
    q: seq<SharedPtr>, registry: seq<u64>, refs: Ownership.Held, cells: seq<RefCount>, cellOf: map<u64, RefCount>,
    counted: map<RefCount, HeapThread>
  )
    requires On(q, registry, cellOf, counted) && Counting(registry, refs, cells, cellOf, counted)
    ensures OnCells(q, cells) && NoTwice(cells)
  {
    forall i | 0 <= i < |q| ensures q[i].refCount == cells[i] {
      assert HandleOn(q[i], cellOf[registry[i]], counted[cellOf[registry[i]]]);
    }
  }

  /** All four queues together: the handles that the counters count. */
  lemma AllQueuesShared(
    infoQ: Queue<SharedPtr>, historyQ: Queue<SharedPtr>, authorQ: Queue<SharedPtr>, registry: Queue<SharedPtr>,
    infos: set<object>, histories: set<object>, authors: set<object>, registered: set<object>,
    w: Ownership.World, cells: seq<RefCount>, cellOf: map<u64, RefCount>, counted: map<RefCount, HeapThread>
  )
    requires infos !! histories !! authors !! registered && Ownership.Sound(w) && Ownership.Idle(w)
    requires QueueHolds(infoQ, infos, w.h.infoQ, cellOf, counted)
    requires QueueHolds(historyQ, histories, w.h.historyQ, cellOf, counted)
    requires QueueHolds(authorQ, authors, w.h.authorQ, cellOf, counted)
    requires QueueHolds(registry, registered, w.h.registry, cellOf, counted)
    requires Counting(w.h.registry, w.h.refs, cells, cellOf, counted)
    ensures AllShared(Elements(infoQ.contents) + Elements(historyQ.contents)
                        + (Elements(authorQ.contents) + Elements(registry.contents)), Elements(cells), counted)
  {
    QueueIn(infoQ, infos);
    QueueIn(historyQ, histories);
    QueueIn(authorQ, authors);
    QueueIn(registry, registered);
    var early, late := infoQ.contents + historyQ.contents, authorQ.contents + registry.contents;
    var h := w.h;
    IdleIsQueued(w);
    hide *;
    JoinedOn(infoQ.contents, historyQ.contents, h.infoQ, h.historyQ, cellOf, counted);
    JoinedOn(authorQ.contents, registry.contents, h.authorQ, h.registry, cellOf, counted);
    assert Elements(early) <= infos + histories && Elements(late) <= authors + registered;
    JoinedOn(early, late, h.infoQ + h.historyQ, h.authorQ + h.registry, cellOf, counted);
    StoredTogether(h);
    CountedIsShared(early + late, AllStored(h), h.registry, h.refs, cells, cellOf, counted);
  }

  lemma StoredTogether(h: Ownership.Handles)
    ensures AllStored(h) == h.infoQ + h.historyQ + (h.authorQ + h.registry)
    ensures forall id :: id in h.infoQ || id in h.historyQ || id in h.authorQ ==> id in AllStored(h)
  {}

  lemma DestructionsAre(s: State)
    ensures Destructions(s) == QueuedKeys(s.msgQ) + KeysOfAll(s.threads)
  {}

  lemma HandlesFarApart(
    infos: set<object>, histories: set<object>, queued: set<object>, authors: set<object>, registered: set<object>,
    cells: set<RefCount>, mine: set<object>, log: Destructor<MessageKey>
  )
    requires FarApart(infos, histories, queued, authors, registered, cells, mine, log)
    ensures infos !! histories !! authors !! registered
  {}

  /** What the teardown relies on holds whenever nobody is busy. */
  lemma Ready(
    infoQ: Queue<SharedPtr>, historyQ: Queue<SharedPtr>, authorQ: Queue<SharedPtr>, registry: Queue<SharedPtr>,
    log: Destructor<MessageKey>, infos: set<object>, histories: set<object>, queued: set<object>,
    authors: set<object>, registered: set<object>, cells: seq<RefCount>, counted: map<RefCount, HeapThread>,
    mine: set<object>, w: Ownership.World, cellOf: map<u64, RefCount>
  )
    requires FarApart(infos, histories, queued, authors, registered, Elements(cells), mine, log)
    requires Ownership.Sound(w) && Ownership.Idle(w)
    requires QueueHolds(infoQ, infos, w.h.infoQ, cellOf, counted)
    requires QueueHolds(historyQ, histories, w.h.historyQ, cellOf, counted)
    requires QueueHolds(authorQ, authors, w.h.authorQ, cellOf, counted)
    requires QueueHolds(registry, registered, w.h.registry, cellOf, counted)
    requires Counting(w.h.registry, w.h.refs, cells, cellOf, counted)
    ensures HandleQueue(registry, registered) && SaveQueue(infoQ, Elements(registry.contents), infos)
    ensures SaveQueue(historyQ, Elements(registry.contents), histories)
    ensures SaveQueue(authorQ, Elements(registry.contents), authors)
    ensures AllShared(Elements(infoQ.contents) + Elements(historyQ.contents)
                        + (Elements(authorQ.contents) + Elements(registry.contents)), Elements(cells), counted)
    ensures OnCells(registry.contents, cells) && NoTwice(cells)
  {
    assert HandleQueue(registry, registered) && On(registry.contents, w.h.registry, cellOf, counted);
    HandlesFarApart(infos, histories, queued, authors, registered, Elements(cells), mine, log);
    hide *;
    IdleIsQueued(w);
    StoredTogether(w.h);
    AllQueuesShared(infoQ, historyQ, authorQ, registry, infos, histories, authors, registered,
                    w, cells, cellOf, counted);
    QueueIsSaveQueue(infoQ, infos, w.h.infoQ, registry, registered, w.h.registry, cellOf, counted);
    QueueIsSaveQueue(historyQ, histories, w.h.historyQ, registry, registered, w.h.registry, cellOf, counted);
    QueueIsSaveQueue(authorQ, authors, w.h.authorQ, registry, registered, w.h.registry, cellOf, counted);
    EachOnItsCell(registry.contents, w.h.registry, w.h.refs, cells, cellOf, counted);
  }

  /**
    `cleanup` once all connections and writers have finished, at the end of any run that the counting of handles (`w`)
    and the store (`s`) describe: it destructs `Destructions(s)`, in that order, and every thread.
   */
  method CleanUpAfterRun(
    infoQ: Queue<SharedPtr>, historyQ: Queue<SharedPtr>, msgQ: Queue<MessageKey>, authorQ: Queue<SharedPtr>,
    registry: Queue<SharedPtr>, log: Destructor<MessageKey>, ghost infos: set<object>, ghost histories: set<object>,
    ghost queued: set<object>, ghost authors: set<object>, ghost registered: set<object>,
    ghost cells: seq<RefCount>, ghost counted: map<RefCount, HeapThread>, ghost ts: seq<HeapThread>,
    ghost mine: set<object>, ghost w: Ownership.World, ghost cellOf: map<u64, RefCount>, ghost s: State
  )
    requires FarApart(infos, histories, queued, authors, registered, Elements(cells), mine, log)
    requires Ownership.Sound(w) && Ownership.Idle(w)
    requires QueueHolds(infoQ, infos, w.h.infoQ, cellOf, counted)
    requires QueueHolds(historyQ, histories, w.h.historyQ, cellOf, counted)
    requires QueueHolds(authorQ, authors, w.h.authorQ, cellOf, counted)
    requires QueueHolds(registry, registered, w.h.registry, cellOf, counted)
    requires Counting(w.h.registry, w.h.refs, cells, cellOf, counted) && Counts(cells, counted, ts)
    requires msgQ in queued && AllIn(msgQ.nodes, queued) && msgQ.Valid() && msgQ.destruct == LemessageDelete
    requires msgQ.contents == QueuedKeys(s.msgQ)
    requires Separate(ts, ListsOf(s.threads), mine, registered + Elements(cells) + {log})
    modifies infos, histories, queued, authors, registered, Elements(cells), mine, log
    ensures log.destroyed == old(log.destroyed) + Destructions(s)
    ensures forall t :: t in ts ==> !t.live
  {
    hide *;
    Ready(infoQ, historyQ, authorQ, registry, log, infos, histories, queued, authors, registered, cells, counted, mine,
          w, cellOf);
    FlattenedLists(s.threads);
    CleanUp(infoQ, historyQ, msgQ, authorQ, registry, log, infos, histories, queued, authors, registered,
            cells, counted, ts, ListsOf(s.threads), mine);
    DestructionsAre(s);
  }
}
