/** On the heap: a message that is still queued when the server stops is destructed twice. */
module HeapWitness {
  import opened Bytes
  import opened Forum
  import opened LinkedQueue
  import opened ThreadObject
  import opened SharedPointer
  import opened Cleanup
  import opened Teardown
  import Ownership
  import Store
  import Eager
  import Runs
  import MessageCleanup
  import Witnesses
  import HandleRuns

  /** A queue that shares nothing with what is in use. */
  method QueueOf(handles: seq<SharedPtr>, ghost used: set<object>)
    returns (q: Queue<SharedPtr>, ghost part: set<object>)
    requires |handles| <= 1 && Elements(handles) !! used
    ensures HandleQueue(q, part) && q.contents == handles && part !! used && fresh(part - Elements(handles))
  {
    q := new Queue<SharedPtr>(SharedptrDelete);
    if handles != [] {
      var _ := q.Push(Some(handles[0]));
    }
    part := {q} + Elements(q.nodes) + Elements(handles);
  }

  method MessageQueueOf(key: MessageKey, ghost used: set<object>)
    returns (q: Queue<MessageKey>, ghost part: set<object>)
    ensures q in part && AllIn(q.nodes, part) && q.Valid() && q.destruct == LemessageDelete && q.contents == [key]
    ensures part !! used && fresh(part)
  {
    q := new Queue<MessageKey>(LemessageDelete);
    var _ := q.Push(Some(key));
    part := {q} + Elements(q.nodes);
  }

  lemma OneThread(t: HeapThread, key: MessageKey, mine: set<object>, outside: set<object>)
    requires t.Whole() && t.Keys() == [key] && mine == t.Repr && mine !! outside
    ensures Separate([t], [[key]], mine, outside)
  {
    assert Separate([t][1..], [[key]][1..], mine - t.Repr, outside);
  }

  /** One registered thread that waits for the info writer, and nobody busy. */
  function Waiting(id: u64): Ownership.World {
    Ownership.World(Ownership.Handles(multiset{id, id}, [id], [id], [], [], multiset{}), [])
  }

  lemma WaitingIsSound(id: u64)
    ensures Ownership.Sound(Waiting(id)) && Ownership.Idle(Waiting(id))
  {
    assert Ownership.HeldBy([]) == multiset{};
  }

  lemma TwoHandles(p: SharedPtr, q: SharedPtr, id: u64, cell: RefCount, t: HeapThread)
    requires p != q && Sharing({p, q}, cell, t)
    ensures var cellOf, counted := map[id := cell], map[cell := t];
      && On([p], [id], cellOf, counted) && On([q], [id], cellOf, counted) && On([], [], cellOf, counted)
      && Counting([id], multiset{id, id}, [cell], cellOf, counted) && Counts([cell], counted, [t])
  {
    assert HandleOn(p, cell, t) && HandleOn(q, cell, t);
    assert [cell][1..] == [];
  }

  lemma Holds(
    q: Queue<SharedPtr>, part: set<object>, ids: seq<u64>, cellOf: map<u64, RefCount>,
    counted: map<RefCount, HeapThread>
  )
    requires HandleQueue(q, part) && On(q.contents, ids, cellOf, counted)
    ensures QueueHolds(q, part, ids, cellOf, counted)
  {}

  lemma AreFarApart(
    infos: set<object>, histories: set<object>, queued: set<object>, authors: set<object>, registered: set<object>,
    cells: set<RefCount>, mine: set<object>, log: Destructor<MessageKey>
  )
    requires mine !! cells && registered !! mine + cells && infos !! mine + cells + registered
    requires histories !! mine + cells + registered + infos
    requires queued !! mine + cells + registered + infos + histories
    requires authors !! mine + cells + registered + infos + histories + queued
    requires log !in mine + cells + registered + infos + histories + queued + authors
    ensures FarApart(infos, histories, queued, authors, registered, cells, mine, log)
  {}

  /** `cleanup` while a message and its thread, which the registry holds, still wait for the writers. */
  method StopTooEarly(
    infoQ: Queue<SharedPtr>, historyQ: Queue<SharedPtr>, msgQ: Queue<MessageKey>, authorQ: Queue<SharedPtr>,
    registry: Queue<SharedPtr>, log: Destructor<MessageKey>, ghost infos: set<object>, ghost histories: set<object>,
    ghost queued: set<object>, ghost authors: set<object>, ghost registered: set<object>,
    ghost t: HeapThread, ghost mine: set<object>, ghost cell: RefCount, ghost p: SharedPtr, ghost q: SharedPtr,
    ghost key: MessageKey, ghost s: Store.State
  )
    requires FarApart(infos, histories, queued, authors, registered, {cell}, mine, log)
    requires HandleQueue(infoQ, infos) && HandleQueue(historyQ, histories) && HandleQueue(authorQ, authors)
    requires HandleQueue(registry, registered) && infoQ.contents == [q] && registry.contents == [p]
    requires historyQ.contents == authorQ.contents == [] && p != q && Sharing({p, q}, cell, t)
    requires msgQ in queued && AllIn(msgQ.nodes, queued) && msgQ.Valid() && msgQ.destruct == LemessageDelete
    requires msgQ.contents == [key] && t.Whole() && t.Keys() == [key] && mine == t.Repr
    requires MessageCleanup.QueuedKeys(s.msgQ) == [key] && ListsOf(s.threads) == [[key]]
    modifies infos, histories, queued, authors, registered, cell, mine, log
    ensures log.destroyed == old(log.destroyed) + MessageCleanup.Destructions(s)
  {
    hide *;
    ghost var w, cellOf, counted := Waiting(key.0), map[key.0 := cell], map[cell := t];
    ghost var id := key.0;
    WaitingIsSound(id);
    WaitingHas(id);
    TwoHandles(p, q, id, cell, t);
    Holds(infoQ, infos, [id], cellOf, counted);
    Holds(historyQ, histories, [], cellOf, counted);
    Holds(authorQ, authors, [], cellOf, counted);
    Holds(registry, registered, [id], cellOf, counted);
    assert Elements([cell]) == {cell};
    MineApart(infos, histories, queued, authors, registered, {cell}, mine, log);
    OneThread(t, key, mine, registered + {cell} + {log});
    CleanUpAfterRun(infoQ, historyQ, msgQ, authorQ, registry, log, infos, histories, queued, authors, registered,
                    [cell], counted, [t], mine, w, cellOf, s);
  }

  lemma WaitingHas(id: u64)
    ensures var h := Waiting(id).h;
      h.refs == multiset{id, id} && h.registry == h.infoQ == [id] && h.authorQ == h.historyQ == []
  {}

  lemma MineApart(
    infos: set<object>, histories: set<object>, queued: set<object>, authors: set<object>, registered: set<object>,
    cells: set<RefCount>, mine: set<object>, log: Destructor<MessageKey>
  )
    requires FarApart(infos, histories, queued, authors, registered, cells, mine, log)
    ensures mine !! registered + cells + {log}
  {}

  method ThreadWithTwoHandles(id: u64, number: u64)
    returns (t: HeapThread, p: SharedPtr, q: SharedPtr, ghost cell: RefCount)
    ensures fresh(t.Repr) && t.Whole() && t.Keys() == [(id, number)]
    ensures fresh(p) && fresh(q) && fresh(cell) && p != q && Sharing({p, q}, cell, t)
    ensures {p, q, cell} !! t.Repr
  {
    t := new HeapThread(id);
    t.AddMessage(number);
    var status, first := SharedPointer.Create(t, Some(LethreadDelete));
    p, cell := first, first.refCount;
    q := SharedPointer.Add(p, {p}, cell, t);
    assert {p} + {q} == {p, q};
  }

  method FiveQueues(p: SharedPtr, q: SharedPtr, key: MessageKey, ghost cell: RefCount, ghost mine: set<object>)
    returns (
      infoQ: Queue<SharedPtr>, historyQ: Queue<SharedPtr>, msgQ: Queue<MessageKey>, authorQ: Queue<SharedPtr>,
      registry: Queue<SharedPtr>, ghost infos: set<object>, ghost histories: set<object>, ghost queued: set<object>,
      ghost authors: set<object>, ghost registered: set<object>, log: Destructor<MessageKey>
    )
    requires p != q && p !in mine && q !in mine && cell !in mine
    ensures HandleQueue(infoQ, infos) && HandleQueue(historyQ, histories) && HandleQueue(authorQ, authors)
    ensures HandleQueue(registry, registered) && infoQ.contents == [q] && registry.contents == [p]
    ensures historyQ.contents == authorQ.contents == []
    ensures msgQ in queued && AllIn(msgQ.nodes, queued) && msgQ.Valid() && msgQ.destruct == LemessageDelete
    ensures msgQ.contents == [key] && log.destroyed == []
    ensures FarApart(infos, histories, queued, authors, registered, {cell}, mine, log)
    ensures fresh(infos - {q}) && fresh(histories + queued + authors + {log}) && fresh(registered - {p})
  {
    hide *;
    ghost var a: set<object> := mine + {cell, q};
    registry, registered := QueueOf([p], a);
    ghost var b := mine + {cell} + registered;
    infoQ, infos := QueueOf([q], b);
    ghost var c := b + infos;
    historyQ, histories := QueueOf([], c);
    ghost var d := c + histories;
    msgQ, queued := MessageQueueOf(key, d);
    ghost var e := d + queued;
    authorQ, authors := QueueOf([], e);
    log := new Destructor<MessageKey>();
    AreFarApart(infos, histories, queued, authors, registered, {cell}, mine, log);
  }

  /** The run of `Witnesses.Posted` ends with these threads and queues. */
  lemma StoreOfTheRun(topic: bytes, text: bytes, o: Store.Oracle)
    requires Witnesses.Fine(topic, o) && NulFree(text) && TextFits(text)
    ensures var s, key := Runs.Final(Store.INITIAL, Witnesses.Posted(topic, text, o)), (0, o.first % RANDOM_IDS);
      && MessageCleanup.QueuedKeys(s.msgQ) == [key] && ListsOf(s.threads) == [[key]]
      && HandleRuns.Matching(Waiting(0).h, s) && MessageCleanup.Destructions(s) == [key, key]
  {
    Witnesses.PostedRun(topic, text, o);
    Witnesses.MessageCanDieTwice(topic, text, o);
    var s, t := Runs.Final(Store.INITIAL, Witnesses.Posted(topic, text, o)), Store.CreatedThread(0, topic, o);
    var u := WithMessage(t, text, FALSE);
    assert u.messages == [Message(t.next, text, FALSE)];
    hide Runs.Final;
    assert MessageCleanup.KeysOf(u) == [(0, o.first % RANDOM_IDS)];
    assert ListsOf(s.threads) == [MessageCleanup.KeysOf(u)];
    assert Store.IdsOf(s.threads) == [0];
  }

  /** The heap at the end of that run, and what becomes of it: the one message is destructed twice. */
  method QueuedMessageDiesTwice(ghost topic: bytes, ghost text: bytes, o: Store.Oracle)
    returns (log: Destructor<MessageKey>)
    requires Witnesses.Fine(topic, o) && NulFree(text) && TextFits(text)
    ensures log.destroyed == [(0, o.first % RANDOM_IDS), (0, o.first % RANDOM_IDS)]
    ensures log.destroyed
         == MessageCleanup.Destructions(Runs.Final(Store.INITIAL, Witnesses.Posted(topic, text, o)))
  {
    var key: MessageKey := (0, o.first % RANDOM_IDS);
    hide *;
    StoreOfTheRun(topic, text, o);
    var t, p, q, cell := ThreadWithTwoHandles(key.0, key.1);
    ghost var mine := t.Repr;
    var infoQ, historyQ, msgQ, authorQ, registry, infos, histories, queued, authors, registered, theLog :=
      FiveQueues(p, q, key, cell, mine);
    log := theLog;
    StopTooEarly(infoQ, historyQ, msgQ, authorQ, registry, log, infos, histories, queued, authors, registered,
                 t, mine, cell, p, q, key, Runs.Final(Store.INITIAL, Witnesses.Posted(topic, text, o)));
  }
}
