/** The shared pointer of lib/shared_ptr.c: handles on one thread that share one counter cell. */
module SharedPointer {
  import opened Bytes
  import opened Forum
  import opened LinkedQueue
  import opened ThreadObject

  class RefCount {
    var value: int
    ghost var live: bool

    constructor ()
      ensures value == 1 && live
    {
      value, live := 1, true;
    }
  }

  class SharedPtr {
    var refCount: RefCount?
    var data: HeapThread?
    var destruct: Option<Callback>
    ghost var live: bool

    constructor (refCount: RefCount, data: HeapThread?, destruct: Option<Callback>)
      ensures this.refCount == refCount && this.data == data && this.destruct == destruct && live
    {
      this.refCount, this.data, this.destruct, live := refCount, data, destruct, true;
    }
  }

  /** A live handle on this thread by this cell. */
  ghost predicate HandleOn(h: SharedPtr, cell: RefCount, data: HeapThread)
    reads h
  {
    h.live && h.refCount == cell && h.data == data && h.destruct == Some(LethreadDelete)
  }

  /** All the handles on one thread: the shared cell counts exactly them. */
  ghost predicate Sharing(handles: set<SharedPtr>, cell: RefCount, data: HeapThread)
    reads handles, cell
  {
    cell.live && cell.value == |handles| && forall h :: h in handles ==> HandleOn(h, cell, data)
  }

  method Create(data: HeapThread?, destruct: Option<Callback>) returns (status: Status, p: SharedPtr?)
    requires destruct in {None, Some(LethreadDelete)}
    ensures status == if data == null || destruct == None then NPTR else OK
    ensures status == NPTR ==> p == null
    ensures status == OK ==>
      fresh(p) && p.refCount != null && fresh(p.refCount) && Sharing({p}, p.refCount, data)
  {
    if data == null {
      return NPTR, null;
    }
    if destruct == None {
      return NPTR, null;
    }
    var cell := new RefCount();
    p := new SharedPtr(cell, data, destruct);
    status := OK;
  }

  /** One more handle; nothing else about the thread changes. */
  method Add(p: SharedPtr?, ghost handles: set<SharedPtr>, ghost cell: RefCount, ghost data: HeapThread)
    returns (r: SharedPtr?)
    requires p != null ==> p in handles && Sharing(handles, cell, data)
    modifies if p == null then {} else {p.refCount}
    ensures p == null ==> r == null
    ensures p != null ==> fresh(r) && Sharing(handles + {r}, cell, data)
  {
    if p == null {
      return null;
    }
    assert HandleOn(p, cell, data);
    r := new SharedPtr(p.refCount, p.data, p.destruct);
    p.refCount.value := p.refCount.value + 1;
    assert r !in handles;
  }

  /** The handle dies; the thread dies, and its messages with it, exactly when that was its last handle. */
  method Delete(p: SharedPtr?, ghost handles: set<SharedPtr>, ghost cell: RefCount, ghost data: HeapThread,
                log: Destructor<MessageKey>) returns (status: Status)
    requires p != null ==> p in handles && Sharing(handles, cell, data)
    requires p != null && handles == {p} ==> data.Whole() && log !in data.Repr && p !in data.Repr && cell !in data.Repr
    modifies if p == null then {} else {p, p.refCount}
    modifies if p != null && handles == {p} then data.Repr + {log} else {}
    ensures status == if p == null then NPTR else OK
    ensures p != null ==> !p.live
    ensures p != null && handles != {p} ==> Sharing(handles - {p}, cell, data) && p.refCount == old(p.refCount)
    ensures p != null && handles == {p} ==>
      !cell.live && !data.live && log.destroyed == old(log.destroyed) + old(data.Keys())
  {
    if p == null {
      return NPTR;
    }
    assert HandleOn(p, cell, data);
    p.refCount.value := p.refCount.value - 1;
    if p.refCount.value <= 0 {
      OnlyOne(p, handles);
      p.data.LethreadDelete(log);
      p.data := null;
      p.destruct := None;
      p.refCount.live := false;
      p.refCount := null;
    }
    p.live := false;
    status := OK;
  }

  lemma OnlyOne<T>(p: T, s: set<T>)
    requires p in s && |s| <= 1
    ensures s == {p}
  {
    assert |s - {p}| == |s| - 1;
  }
}
