/** The running server (server/server.c, server/query.c): threads, queues and files updated in place. */
module Server {
  import opened Bytes
  import opened Forum
  import opened ForumIo
  import opened Wire
  import opened Store
  import opened Eager
  import opened Runs
  import opened ServerReplies
  import Ownership

  /** `LeCommandResult`; no data means that only the status is sent. */
  datatype CommandResult = CommandResult(data: bytes, status: Status) | UndefinedResult

  /** What `handle_client` sends back for a result. */
  function FrameOf(r: CommandResult): Reply {
    match r
    case UndefinedResult => Undefined
    case CommandResult(data, status) => if data == [] then StatusReply(status) else Frame(data)
  }

  function Failed(status: Status): CommandResult {
    CommandResult([], status)
  }

  function Views(ts: seq<LeThread>): (r: seq<Thread>)
    reads ts
    ensures |r| == |ts| && forall i :: 0 <= i < |ts| ==> r[i] == ts[i].View()
  {
    seq(|ts|, i requires 0 <= i < |ts| reads ts => ts[i].View())
  }

  /** Two oracles that differ only in buffer bytes nobody wrote. */
  ghost predicate SameInputs(o0: Oracle, o: Oracle) {
    o == o0.(pads := o.pads, tail := o.tail)
  }

  /** Index of the first thread with this id, or -1. */
  function FirstIndex(ts: seq<LeThread>, id: u64): (r: int)
    ensures -1 <= r < |ts| && (r >= 0 ==> ts[r].id == id)
  {
    if ts == [] then -1
    else if ts[0].id == id then 0
    else var r := FirstIndex(ts[1..], id); if r < 0 then -1 else r + 1
  }

  lemma {:induction false} FirstIndexOfViews(ts: seq<LeThread>, id: u64)
    ensures IndexOf(Views(ts), id) == FirstIndex(ts, id)
  {
    if ts != [] {
      FirstIndexOfViews(ts[1..], id);
      assert Views(ts)[1..] == Views(ts[1..]);
    }
  }

  lemma {:induction false} FirstIndexSnoc(ts: seq<LeThread>, t: LeThread, id: u64)
    ensures FirstIndex(ts + [t], id)
         == if FirstIndex(ts, id) >= 0 then FirstIndex(ts, id) else if t.id == id then |ts| else -1
  {
    if ts == [] {
      assert ts + [t] == [t];
      assert FirstIndex([], id) == -1;
    } else {
      assert (ts + [t])[1..] == ts[1..] + [t];
      FirstIndexSnoc(ts[1..], t, id);
    }
  }

  lemma {:induction false} FirstIndexFinds(ts: seq<LeThread>, i: nat)
    requires i < |ts|
    ensures 0 <= FirstIndex(ts, ts[i].id) <= i
  {
    if ts[0].id != ts[i].id {
      assert ts[1..][i - 1] == ts[i];
      FirstIndexFinds(ts[1..], i - 1);
    }
  }

  lemma DistinctMeansFirst(ts: seq<LeThread>, nextId: u64)
    requires DistinctIds(Views(ts)) && forall i :: 0 <= i < |ts| ==> ts[i].id < nextId
    ensures RegistryOk(ts, nextId)
  {
    forall i | 0 <= i < |ts| ensures FirstIndex(ts, ts[i].id) == i {
      FirstIndexFinds(ts, i);
      var r := FirstIndex(ts, ts[i].id);
      assert Views(ts)[r].id == Views(ts)[i].id;
    }
  }

  /** Registered threads have distinct ids below the counter. */
  ghost predicate RegistryOk(threads: seq<LeThread>, nextId: u64) {
    && (forall i :: 0 <= i < |threads| ==> FirstIndex(threads, threads[i].id) == i)
    && (forall i :: 0 <= i < |threads| ==> threads[i].id < nextId)
  }

  lemma NewThreadOk(threads: seq<LeThread>, nextId: u64, t: LeThread)
    requires RegistryOk(threads, t.id) && t.id < nextId
    ensures RegistryOk(threads + [t], nextId)
  {
    assert FirstIndex(threads, t.id) < 0;
    forall i | 0 <= i < |threads + [t]| ensures FirstIndex(threads + [t], (threads + [t])[i].id) == i {
      FirstIndexSnoc(threads, t, (threads + [t])[i].id);
    }
  }

  /** The table of `query_process`, in its order. */
  const COMMANDS: seq<bytes> := [GTHR, CTHR, FTHR, CMSG, META, LIVE]

  class LeServer {
    const disk: Disk
    var threads: seq<LeThread>
    var nextId: u64
    var infoQ: seq<u64>
    var authorQ: seq<u64>
    var msgQ: seq<Pending>
    /** Every operation on a handle so far, in order; the queues above keep the ids of the threads they point to. */
    ghost var ops: seq<Ownership.Op>

    /** `sharedptr_add` and `sharedptr_create`, `queue_push` of a handle, `queue_pop`, `sharedptr_delete`. */
    ghost method Trace(op: Ownership.Op)
      modifies `ops
      ensures ops == old(ops) + [op]
    {
      ops := ops + [op];
    }

    function Snapshot(): State
      reads this, disk, threads
    {
      State(Views(threads), nextId, infoQ, authorQ, msgQ, disk.dirs, disk.meta)
    }

    ghost predicate Valid()
      reads `threads, `nextId
    {
      RegistryOk(threads, nextId)
    }

    /** `startup`: the registry from the directories, then the counter. */
    constructor (disk: Disk, order: seq<u64>)
      ensures this.disk == disk && forall t :: t in threads ==> fresh(t)
      ensures Snapshot() == Startup(disk.dirs, disk.meta, order)
      ensures Listing(disk.dirs, order) && DiskIdsBelow(disk.dirs, MetaValue(disk.meta)) ==> Valid()
    {
      this.disk := disk;
      var loaded := LoadThreads(disk, order);
      threads, infoQ, authorQ, msgQ, ops := loaded, [], [], [], [];
      nextId := MetaValue(disk.meta);
      new;
      if Listing(disk.dirs, order) && DiskIdsBelow(disk.dirs, nextId) {
        LoadAllDistinct(disk.dirs, order, nextId);
        assert forall i :: 0 <= i < |threads| ==> threads[i].id == Views(threads)[i].id;
        DistinctMeansFirst(threads, nextId);
      }
    }

    // ------------------------------------------------------------------ lookups

    /** The walk along the registry: the first thread with this id, or null. */
    method FindThread(id: u64) returns (t: LeThread?)
      ensures var i := IndexOf(Views(threads), id); if i < 0 then t == null else t == threads[i]
    {
      FirstIndexOfViews(threads, id);
      var k := 0;
      while k < |threads|
        invariant 0 <= k <= |threads|
        invariant FirstIndex(threads, id)
               == if FirstIndex(threads[k..], id) < 0 then -1 else k + FirstIndex(threads[k..], id)
      {
        assert threads[k..][1..] == threads[k + 1..];
        if threads[k].id == id {
          return threads[k];
        }
        k := k + 1;
      }
      t := null;
    }

    method LoadLazily(t: LeThread, junk: seq<Message>)
      modifies t
      ensures t.View() == Touch(old(t.View()), disk.dirs, junk)
    {
      if t.messages == [] && MessageCount(t.View()) != 0 {
        disk.LemessagesLoad(t, junk);
      }
      if t.author.None? {
        disk.LeauthorLoad(t);
      }
    }

    /** Changing one registered thread changes one entry of the registry's view. */
    twostate lemma OneViewChanged(i: nat)
      requires i < |threads| && threads == old(threads)
      requires forall j :: 0 <= j < |threads| && j != i ==> unchanged(threads[j])
      ensures Views(threads) == old(Views(threads))[i := threads[i].View()]
    {}

    lemma DistinctObjects(i: nat, j: nat)
      requires Valid() && i < |threads| && j < |threads| && i != j
      ensures threads[i] != threads[j]
    {
      assert FirstIndex(threads, threads[i].id) == i;
    }

    /** Find the thread, complete it from its files and add a handle on it. */
    method LethreadGetById(id: u64, junk: seq<Message>) returns (t: LeThread?)
      requires Valid()
      modifies threads, `ops
      ensures ops == old(ops) + if t == null then [] else [Ownership.AddRegistered(id)]
      ensures Snapshot() == Lookup(old(Snapshot()), id, junk).0
      ensures var i := IndexOf(old(Views(threads)), id); if i < 0 then t == null else t == threads[i]
    {
      t := FindThread(id);
      if t == null {
        return;
      }
      ghost var i := IndexOf(Views(threads), id);
      LoadLazily(t, junk);
      forall j | 0 <= j < |threads| && j != i ensures threads[j] != t {
        DistinctObjects(i, j);
      }
      OneViewChanged(i);
      Trace(Ownership.AddRegistered(id));
    }

    // --------------------------------------------------------------------- commands

    /** GTHR once the id is known. */
    method ServeGet(id: u64, o0: Oracle) returns (r: CommandResult, ghost o: Oracle)
      requires Valid()
      modifies threads, `ops
      ensures SameInputs(o0, o)
      ensures ops == old(ops) + Ownership.Program(old(Views(threads)), nextId, Get(id))
      ensures (Snapshot(), FrameOf(r)) == HandleGet(old(Snapshot()), id, o)
    {
      ghost var s := Snapshot();
      var t := LethreadGetById(id, o0.junk);
      ghost var s1 := Snapshot();
      if t == null {
        o := o0;
        GetNothing(s, s1, id, o);
        return Failed(NFND), o;
      }
      var view := t.View();
      assert s1.threads[IndexOf(s.threads, id)] == view;
      var buf, size, pads := BuildGetReply(view);
      var data := buf[..size];
      o := o0.(pads := pads);
      GetSomething(s, s1, id, view, data, o);
      Trace(Ownership.Delete(id));
      r := CommandResult(data, OK);
    }

    method CmdLethreadGet(d: bytes, o0: Oracle) returns (r: CommandResult, ghost o: Oracle)
      requires Valid()
      modifies threads, `ops
      ensures ops == old(ops) + Ownership.Program(old(Views(threads)), nextId, ReadGet(d))
      ensures SameInputs(o0, o)
      ensures (Snapshot(), FrameOf(r)) == Handle(old(Snapshot()), ReadGet(d), o)
    {
      if |d| < 13 {
        return Failed(ISYN), o0;
      }
      if Eat(THRID, d).None? {
        return Failed(ISYN), o0;
      }
      var p := d[5..];
      var id := ReadU64(p[..8]);
      r, o := ServeGet(id, o0);
    }

    /** `next_lethread_id`: the counter is on disk before the id is returned. */
    method NextLethreadId() returns (id: u64)
      requires Valid() && nextId + 1 < TWO_64
      modifies `nextId, disk`meta
      ensures id == old(nextId) && nextId == id + 1
      ensures disk.meta == Some(U64(id + 1))
    {
      id := nextId;
      nextId := (nextId + 1) % TWO_64;
      disk.meta := Some(U64(nextId));
    }

    /** `s_lethread_create`: a new thread at the end of the registry. */
    method SLethreadCreate(topic: bytes, random: u64) returns (t: LeThread)
      requires Valid() && nextId + 1 < TWO_64
      modifies `threads, `nextId, `ops, disk`meta
      ensures ops == old(ops)
        + [Ownership.New(t.id), Ownership.Push(Ownership.Registry, t.id), Ownership.AddRegistered(t.id)]
      ensures Valid() && fresh(t) && threads == old(threads) + [t]
      ensures nextId == old(nextId) + 1 && disk.meta == Some(U64(nextId))
      ensures t.View() == NewThread(topic, old(nextId), random)
    {
      var id := NextLethreadId();
      t := new LeThread(topic, id, random);
      NewThreadOk(threads, nextId, t);
      Trace(Ownership.New(t.id));
      threads := threads + [t];
      Trace(Ownership.Push(Ownership.Registry, t.id));
      Trace(Ownership.AddRegistered(t.id));
    }

    /** `s_lethread_save`. */
    method SLethreadSave(t: LeThread)
      modifies `infoQ, `ops
      ensures infoQ == old(infoQ) + [t.id]
      ensures ops == old(ops) + [Ownership.Add(t.id), Ownership.Push(Ownership.InfoQ, t.id)]
    {
      Trace(Ownership.Add(t.id));
      infoQ := infoQ + [t.id];
      Trace(Ownership.Push(Ownership.InfoQ, t.id));
    }

    /** `s_leauthor_save`. */
    method SLeauthorSave(t: LeThread)
      modifies `authorQ, `ops
      ensures authorQ == old(authorQ) + [t.id]
      ensures ops == old(ops) + [Ownership.Add(t.id), Ownership.Push(Ownership.AuthorQ, t.id)]
    {
      Trace(Ownership.Add(t.id));
      authorQ := authorQ + [t.id];
      Trace(Ownership.Push(Ownership.AuthorQ, t.id));
    }

    /** Everything CTHR does to the server's state. */
    method CreateThread(topic: bytes, o: Oracle) returns (t: LeThread)
      requires Valid() && nextId + 1 < TWO_64
      modifies this, disk
      ensures Valid() && t.id == old(nextId)
      ensures Snapshot() == WithThread(old(Snapshot()), CreatedThread(old(nextId), topic, o), old(nextId) + 1)
      ensures ops + [Ownership.Delete(t.id)] == old(ops) + Ownership.CreateProgram(t.id)
    {
      hide RegistryOk, Ownership.CreateProgram, CStr, U64;
      ghost var ts, views := threads, Views(threads);
      CreateTrace(ops, nextId);
      t := SLethreadCreate(topic, o.first);
      t.author := Some(Author(o.authorId % RANDOM_IDS, o.token));
      SLethreadSave(t);
      SLeauthorSave(t);
      assert Views(ts) == views;
      ViewsSnoc(ts, t);
    }

    /** CTHR once the topic is known. */
    method ServeCreate(topic: bytes, o0: Oracle) returns (r: CommandResult, ghost o: Oracle)
      requires Valid() && nextId + 1 < TWO_64 && |o0.token| == TOKEN_SIZE
      modifies this, disk
      ensures Valid() && SameInputs(o0, o)
      ensures ops == old(ops) + Ownership.CreateProgram(old(nextId))
      ensures (Snapshot(), FrameOf(r)) == HandleCreate(old(Snapshot()), topic, o)
    {
      ghost var s := Snapshot();
      var t := CreateThread(topic, o0);
      var buf, size, tail := BuildCreateReply(t.id, o0.token);
      var data := buf[..size];
      o := o0.(tail := tail);
      CreateSomething(s, topic, o0, o, data);
      Trace(Ownership.Delete(t.id));
      r := CommandResult(data, OK);
    }

    method CmdLethreadCreate(d: bytes, o0: Oracle) returns (r: CommandResult, ghost o: Oracle)
      requires Valid() && nextId + 1 < TWO_64 && |o0.token| == TOKEN_SIZE
      modifies this, disk
      ensures Valid() && SameInputs(o0, o)
      ensures ops == old(ops) + Ownership.Program(old(Views(threads)), old(nextId), ReadCreate(d))
      ensures (Snapshot(), FrameOf(r)) == Handle(old(Snapshot()), ReadCreate(d), o)
    {
      if |d| < 16 {
        return Failed(ISYN), o0;
      }
      if Eat(TPCSZ, d).None? {
        return Failed(ISYN), o0;
      }
      var p := d[5..];
      var topicSize := ReadU64(p[..8]);
      p := p[8..];
      if topicSize > MAX_TOPIC_SIZE || topicSize < MIN_TOPIC_SIZE {
        return Failed(IDAT), o0;
      }
      if Eat(TPC, p).None? {
        return Failed(ISYN), o0;
      }
      p := p[3..];
      r, o := ServeCreate(CStr(p), o0);
    }

    /** `lemessage_create` on a registered thread. */
    method AddMessage(t: LeThread, ghost i: nat, text: bytes, flag: u32) returns (m: Message)
      requires Valid() && i < |threads| && threads[i] == t && TextFits(text)
      modifies t
      ensures m == Message(old(t.next), text, flag)
      ensures Snapshot() == old(Snapshot()).(
          threads := old(Views(threads))[i := WithMessage(old(t.View()), text, flag)])
    {
      var created := t.CreateMessage(text, flag);
      m := created.value;
      forall j | 0 <= j < |threads| && j != i ensures threads[j] != t {
        DistinctObjects(i, j);
      }
      OneViewChanged(i);
    }

    /** A good message: append it, queue it for the log, queue the thread's info. */
    method PostText(t: LeThread, ghost i: nat, text: bytes, token: Option<bytes>)
      requires Valid() && i < |threads| && threads[i] == t && TextFits(text)
      modifies `msgQ, `infoQ, `ops, t
      ensures Snapshot() == Posted(old(Snapshot()), i, text, PostFlag(old(t.View()), token))
      ensures ops == old(ops) + [Ownership.Add(t.id), Ownership.Push(Ownership.InfoQ, t.id)]
    {
      var isAuthor := FALSE;
      if token.Some? {
        isAuthor := TokenFlag(t.View(), token.value);
      }
      var m := AddMessage(t, i, text, isAuthor);
      msgQ := msgQ + [Pending(t.id, m)];
      SLethreadSave(t);
    }

    /** The rest of CMSG with a found thread; every exit gives the handle back. */
    method FinishPost(t: LeThread, ghost i: nat, d: bytes) returns (r: CommandResult)
      requires Valid() && i < |threads| && threads[i] == t && |d| >= 16
      modifies `msgQ, `infoQ, `ops, t
      ensures (Snapshot(), FrameOf(r)) == Finished(old(Snapshot()), i, ReadBody(d))
      ensures r != UndefinedResult ==> ops == old(ops) + Ownership.FinishProgram(t.id, ReadBody(d))
    {
      hide Posted, CStrN, ReadU64, StatusText, PostFlag;
      if Eat(TXTSZ, d).None? {
        Trace(Ownership.Delete(t.id));
        return Failed(ISYN);
      }
      var p := d[5..];
      var textSize := ReadU64(p[..8]);
      p := p[8..];
      if textSize > MAX_MESSAGE_SIZE || textSize < MIN_MESSAGE_SIZE {
        Trace(Ownership.Delete(t.id));
        return Failed(IDAT);
      }
      if Eat(TXT, p).None? {
        Trace(Ownership.Delete(t.id));
        return Failed(ISYN);
      }
      p := p[3..];
      if |p| < textSize {
        return UndefinedResult;
      }
      var text := CStrN(p, textSize);
      if !TextFits(text) {
        return UndefinedResult;
      }
      p := p[textSize..];
      PostText(t, i, text, if Eat(TKN, p).Some? then Some(p[3..]) else None);
      Trace(Ownership.Delete(t.id));
      r := Failed(OK);
    }

    /** CMSG once the id is known. */
    method ServePost(id: u64, d: bytes, o: Oracle) returns (r: CommandResult)
      requires Valid() && |d| >= 16
      modifies `msgQ, `infoQ, `ops, threads
      ensures (Snapshot(), FrameOf(r)) == HandlePost(old(Snapshot()), id, ReadBody(d), o)
      ensures r != UndefinedResult ==>
        ops == old(ops) + Ownership.Program(old(Views(threads)), nextId, Post(id, ReadBody(d)))
    {
      ghost var s, body, i := Snapshot(), ReadBody(d), IndexOf(Views(threads), id);
      assert s.threads == Views(threads) && s.nextId == nextId;
      assert i < |threads| && (i >= 0 ==> threads[i].id == id);
      hide *;
      PostEnds(s, id, body, o);
      PostTrace(ops, id, body);
      var t := LethreadGetById(id, o.junk);
      if t == null {
        return Failed(NFND);
      }
      r := FinishPost(t, i, d);
    }

    method CmdLemessageCreate(d: bytes, o: Oracle) returns (r: CommandResult)
      requires Valid()
      modifies `msgQ, `infoQ, `ops, threads
      ensures (Snapshot(), FrameOf(r)) == Handle(old(Snapshot()), ReadPost(d), o)
      ensures r != UndefinedResult ==>
        ops == old(ops) + Ownership.Program(old(Views(threads)), nextId, ReadPost(d))
    {
      if |d| < 29 {
        return Failed(ISYN);
      }
      if Eat(THRID, d).None? {
        return Failed(ISYN);
      }
      var p := d[5..];
      var id := ReadU64(p[..8]);
      p := p[8..];
      assert ReadPost(d) == Post(id, ReadBody(p));
      r := ServePost(id, p, o);
    }

    /** `lethread_find`: every thread whose topic contains the part, in registry order. */
    method LethreadFind(part: bytes) returns (found: seq<Found>)
      modifies `ops
      ensures found == Matches(Views(threads), part)
      ensures ops == old(ops) + Ownership.Adds(found)
    {
      ghost var views := Views(threads);
      found := [];
      var k := 0;
      while k < |threads|
        invariant 0 <= k <= |threads|
        invariant Views(threads) == views && found == Matches(views[..k], part)
        invariant ops == old(ops) + Ownership.Adds(found)
      {
        MatchesSnoc(views[..k], views[k], part);
        assert views[..k + 1] == views[..k] + [views[k]];
        if Contains(threads[k].topic, part) {
          Ownership.AddsSnoc(found, Found(threads[k].id, threads[k].topic));
          Trace(Ownership.AddRegistered(threads[k].id));
          found := found + [Found(threads[k].id, threads[k].topic)];
        }
        k := k + 1;
      }
      assert views[..k] == views;
    }

    /** `queue_delete` of a find result. */
    method DeleteFound(found: seq<Found>)
      modifies `ops
      ensures ops == old(ops) + Ownership.Deletes(found)
    {
      var k := 0;
      while k < |found|
        invariant 0 <= k <= |found|
        invariant ops == old(ops) + Ownership.Deletes(found[..k])
      {
        Ownership.DeletesSnoc(found[..k], found[k]);
        assert found[..k + 1] == found[..k] + [found[k]];
        Trace(Ownership.Delete(found[k].id));
        k := k + 1;
      }
      assert found[..k] == found;
    }

    /** FTHR once the part is known. */
    method ServeFind(part: bytes) returns (r: CommandResult)
      modifies `ops
      ensures ops == old(ops) + Ownership.Program(Views(threads), nextId, Find(part))
      ensures (Snapshot(), FrameOf(r)) == HandleFind(old(Snapshot()), part)
    {
      hide Ownership.Program, Ownership.Adds, Ownership.Deletes, HandleFind, FrameOf, Matches, FindReply;
      FindEnds(Snapshot(), ops, part);
      var found := LethreadFind(part);
      var buf, size := BuildFindReply(found);
      DeleteFound(found);
      r := CommandResult(buf[..size], OK);
    }

    method CmdLethreadFind(d: bytes, o: Oracle) returns (r: CommandResult)
      modifies `ops
      ensures r != UndefinedResult ==> ops == old(ops) + Ownership.Program(Views(threads), nextId, ReadFind(d))
      ensures (Snapshot(), FrameOf(r)) == Handle(old(Snapshot()), ReadFind(d), o)
    {
      if Eat(TPCPSZ, d).None? {
        return Failed(ISYN);
      }
      var p := d[6..];
      if |p| < 8 {
        return UndefinedResult;
      }
      var partSize := ReadU64(p[..8]);
      p := p[8..];
      if partSize > MAX_TOPIC_SIZE || partSize < MIN_TOPIC_SIZE {
        return Failed(IDAT);
      }
      if Eat(TPCP, p).None? {
        return Failed(ISYN);
      }
      p := p[4..];
      r := ServeFind(CStrN(p, partSize));
    }

    method CmdMeta() returns (r: CommandResult)
      ensures FrameOf(r) == Frame(MetaReply(|threads|)) && r != UndefinedResult
    {
      var buf, size := BuildMetaReply(|threads|);
      r := CommandResult(buf[..size], OK);
    }

    /** Index of the first command that starts the packet, or the table's size. */
    static method FindCommand(p: bytes) returns (k: nat)
      ensures k <= 6
      ensures k < 6 ==> Eat(COMMANDS[k], p).Some?
      ensures forall j :: 0 <= j < k ==> Eat(COMMANDS[j], p).None?
    {
      k := 0;
      while k < 6
        invariant 0 <= k <= 6
        invariant forall j :: 0 <= j < k ==> Eat(COMMANDS[j], p).None?
      {
        if Eat(COMMANDS[k], p).Some? {
          return;
        }
        k := k + 1;
      }
    }

    /** The handler of one row of the table. */
    method RunCommand(k: nat, p: bytes, o0: Oracle) returns (r: CommandResult, ghost o: Oracle)
      requires Valid() && nextId + 1 < TWO_64 && |o0.token| == TOKEN_SIZE && (k < 4 ==> |p| >= 4)
      modifies this, threads, disk
      ensures Valid() && SameInputs(o0, o)
      ensures (Snapshot(), FrameOf(r)) == Handle(old(Snapshot()), RequestBy(k, p), o)
      ensures r != UndefinedResult ==>
        ops == old(ops) + Ownership.Program(old(Views(threads)), old(nextId), RequestBy(k, p))
    {
      o := o0;
      match k
      case 0 => r, o := CmdLethreadGet(p[4..], o0);
      case 1 => r, o := CmdLethreadCreate(p[4..], o0);
      case 2 => r := CmdLethreadFind(p[4..], o0);
      case 3 => r := CmdLemessageCreate(p[4..], o0);
      case 4 => r := CmdMeta();
      case 5 => r := Failed(OK);
      case _ => r := Failed(ISYN);
    }

    /** Dispatch: any packet at all is answered, and handles are added and deleted, as the state machine says. */
    method QueryProcess(p: bytes, o0: Oracle) returns (r: CommandResult, ghost o: Oracle)
      requires Valid() && nextId + 1 < TWO_64 && |o0.token| == TOKEN_SIZE
      modifies this, threads, disk
      ensures Valid() && SameInputs(o0, o)
      ensures (Snapshot(), FrameOf(r)) == Handle(old(Snapshot()), ReadRequest(p), o)
      ensures r != UndefinedResult ==>
        ops == old(ops) + Ownership.Program(old(Views(threads)), old(nextId), ReadRequest(p))
    {
      var k := FindCommand(p);
      Dispatch(p, k);
      r, o := RunCommand(k, p, o0);
    }

    // ---------------------------------------------------------------- writer threads

    method SaveInfoFile(id: u64)
      modifies disk
      ensures Snapshot() == old(Snapshot()).(dirs := SaveInfoBy(old(Snapshot()), id))
    {
      var t := FindThread(id);
      if t != null {
        var _ := disk.LethreadSave(t);
      }
    }

    /** One turn of `lethread_query_manage`: pop, save the thread as it is now. */
    method InfoTurn()
      modifies `infoQ, `ops, disk
      ensures Snapshot() == WriteInfo(old(Snapshot()))
      ensures ops == old(ops)
        + if old(infoQ) == [] then [] else [Ownership.Pop(Ownership.InfoQ), Ownership.Delete(old(infoQ)[0])]
    {
      if infoQ == [] {
        return;
      }
      ghost var s := Snapshot();
      var id := infoQ[0];
      infoQ := infoQ[1..];
      Trace(Ownership.Pop(Ownership.InfoQ));
      assert Snapshot() == s.(infoQ := s.infoQ[1..]);
      SaveInfoFile(id);
      Trace(Ownership.Delete(id));
    }

    method SaveAuthorFile(id: u64)
      modifies disk
      ensures Snapshot() == old(Snapshot()).(dirs := SaveAuthorBy(old(Snapshot()), id))
    {
      var t := FindThread(id);
      if t != null {
        var _ := disk.LeauthorSave(t);
      }
    }

    /** One turn of `leauthor_query_manage`: pop, save the thread as it is now. */
    method AuthorTurn()
      modifies `authorQ, `ops, disk
      ensures Snapshot() == WriteAuthor(old(Snapshot()))
      ensures ops == old(ops)
        + if old(authorQ) == [] then [] else [Ownership.Pop(Ownership.AuthorQ), Ownership.Delete(old(authorQ)[0])]
    {
      if authorQ == [] {
        return;
      }
      ghost var s := Snapshot();
      var id := authorQ[0];
      authorQ := authorQ[1..];
      Trace(Ownership.Pop(Ownership.AuthorQ));
      assert Snapshot() == s.(authorQ := s.authorQ[1..]);
      SaveAuthorFile(id);
      Trace(Ownership.Delete(id));
    }

    /** One turn of `lemessage_query_manage`. */
    method MessageTurn()
      modifies `msgQ, disk
      ensures Snapshot() == WriteMessage(old(Snapshot()))
    {
      if msgQ == [] {
        return;
      }
      var m := msgQ[0];
      msgQ := msgQ[1..];
      disk.LemessageSave(m.owner, m.msg);
    }

    /** `lethread_query_manage`, until it finds its queue empty. */
    method LethreadQueryManage()
      modifies `infoQ, `ops, disk
      ensures Snapshot() == DrainInfo(old(Snapshot())) && infoQ == []
      ensures ops == old(ops) + Ownership.Turns(Ownership.InfoQ, old(infoQ))
    {
      while infoQ != []
        invariant DrainInfo(Snapshot()) == DrainInfo(old(Snapshot()))
        invariant ops + Ownership.Turns(Ownership.InfoQ, infoQ)
               == old(ops) + Ownership.Turns(Ownership.InfoQ, old(infoQ))
        decreases |infoQ|
      {
        ghost var s := Snapshot();
        InfoTurn();
        assert Snapshot() == WriteInfo(s);
      }
    }

    /** `leauthor_query_manage`. */
    method LeauthorQueryManage()
      modifies `authorQ, `ops, disk
      ensures Snapshot() == DrainAuthors(old(Snapshot())) && authorQ == []
      ensures ops == old(ops) + Ownership.Turns(Ownership.AuthorQ, old(authorQ))
    {
      while authorQ != []
        invariant DrainAuthors(Snapshot()) == DrainAuthors(old(Snapshot()))
        invariant ops + Ownership.Turns(Ownership.AuthorQ, authorQ)
               == old(ops) + Ownership.Turns(Ownership.AuthorQ, old(authorQ))
        decreases |authorQ|
      {
        ghost var s := Snapshot();
        AuthorTurn();
        assert Snapshot() == WriteAuthor(s);
      }
    }

    /** `lemessage_query_manage`. */
    method LemessageQueryManage()
      modifies `msgQ, disk
      ensures Snapshot() == DrainMessages(old(Snapshot())) && msgQ == []
    {
      while msgQ != []
        invariant DrainMessages(Snapshot()) == DrainMessages(old(Snapshot()))
        decreases |msgQ|
      {
        ghost var s := Snapshot();
        MessageTurn();
        assert Snapshot() == WriteMessage(s);
      }
    }
  }

  function SaveInfoBy(s: State, id: u64): Dirs {
    var i := IndexOf(s.threads, id);
    if i < 0 then s.dirs else SaveInfo(s.dirs, s.threads[i])
  }

  function SaveAuthorBy(s: State, id: u64): Dirs {
    var i := IndexOf(s.threads, id);
    if i < 0 then s.dirs else SaveAuthor(s.dirs, s.threads[i])
  }

  /** How row k of the command table reads a packet. */
  function RequestBy(k: nat, p: bytes): Request
    requires k < 4 ==> |p| >= 4
  {
    match k
    case 0 => ReadGet(p[4..])
    case 1 => ReadCreate(p[4..])
    case 2 => ReadFind(p[4..])
    case 3 => ReadPost(p[4..])
    case 4 => Meta
    case 5 => Live
    case _ => Reject(ISYN)
  }

  /** The first row that matches decides how the packet is read. */
  lemma Dispatch(p: bytes, k: nat)
    requires k <= 6 && (k < 6 ==> Eat(COMMANDS[k], p).Some?)
    requires forall j :: 0 <= j < k ==> Eat(COMMANDS[j], p).None?
    ensures (k < 4 ==> |p| >= 4) && ReadRequest(p) == RequestBy(k, p)
  {
    assert COMMANDS[0] == GTHR && COMMANDS[1] == CTHR && COMMANDS[2] == FTHR && COMMANDS[3] == CMSG;
    assert COMMANDS[4] == META && COMMANDS[5] == LIVE;
  }

  lemma {:induction false} MatchesSnoc(ts: seq<Thread>, t: Thread, part: bytes)
    ensures Matches(ts + [t], part)
         == Matches(ts, part) + if Contains(t.topic, part) then [Found(t.id, t.topic)] else []
  {
    if ts == [] {
      assert ts + [t] == [t];
      assert Matches([], part) == [];
    } else {
      var last := if Contains(t.topic, part) then [Found(t.id, t.topic)] else [];
      var first := if Contains(ts[0].topic, part) then [Found(ts[0].id, ts[0].topic)] else [];
      assert (ts + [t])[1..] == ts[1..] + [t];
      MatchesSnoc(ts[1..], t, part);
      assert first + (Matches(ts[1..], part) + last) == (first + Matches(ts[1..], part)) + last;
    }
  }

  lemma FindReplyNotEmpty(fs: seq<Found>)
    ensures FindReply(fs) != []
  {}

  /** What CMSG does after the lookup, as a function of the thread's index. */
  function Finished(s: State, i: nat, body: Body): (State, Reply)
    requires i < |s.threads|
  {
    match body
    case BadBody(status) => (s, StatusReply(status))
    case UndefinedBody => (s, Undefined)
    case Text(text, token) => (Posted(s, i, text, PostFlag(s.threads[i], token)), StatusReply(OK))
  }

  lemma PostEnds(s: State, id: u64, body: Body, o: Oracle)
    ensures var (s1, i) := Lookup(s, id, o.junk);
      && i == IndexOf(s.threads, id)
      && HandlePost(s, id, body, o) == if i < 0 then (s1, FrameOf(Failed(NFND))) else Finished(s1, i, body)
    ensures Ownership.Program(s.threads, s.nextId, Post(id, body))
         == if IndexOf(s.threads, id) < 0 then []
            else [Ownership.AddRegistered(id)] + Ownership.FinishProgram(id, body)
  {}

  lemma FindEnds(s: State, ops: seq<Ownership.Op>, part: bytes)
    ensures HandleFind(s, part) == (s, FrameOf(CommandResult(FindReply(Matches(s.threads, part)), OK)))
    ensures var fs := Matches(s.threads, part);
      ops + Ownership.Adds(fs) + Ownership.Deletes(fs) == ops + Ownership.Program(s.threads, s.nextId, Find(part))
  {
    FindReplyNotEmpty(Matches(s.threads, part));
  }

  lemma PostTrace(ops: seq<Ownership.Op>, id: u64, body: Body)
    ensures ops + [] == ops
    ensures ops + [Ownership.AddRegistered(id)] + Ownership.FinishProgram(id, body)
         == ops + ([Ownership.AddRegistered(id)] + Ownership.FinishProgram(id, body))
  {}

  lemma CreateTrace(ops: seq<Ownership.Op>, id: u64)
    ensures ops + [Ownership.New(id), Ownership.Push(Ownership.Registry, id), Ownership.AddRegistered(id)]
        + [Ownership.Add(id), Ownership.Push(Ownership.InfoQ, id)]
        + [Ownership.Add(id), Ownership.Push(Ownership.AuthorQ, id)] + [Ownership.Delete(id)]
      == ops + Ownership.CreateProgram(id)
  {}

  lemma CreateSomething(s: State, topic: bytes, o0: Oracle, o: Oracle, data: bytes)
    requires s.nextId + 1 < TWO_64 && SameInputs(o0, o)
    requires data == CreateReply(s.nextId, o.token, o.tail)
    ensures HandleCreate(s, topic, o)
         == (WithThread(s, CreatedThread(s.nextId, topic, o0), s.nextId + 1), FrameOf(CommandResult(data, OK)))
  {
    assert (s.nextId + 1) % TWO_64 == s.nextId + 1;
    assert data != [];
  }

  lemma GetNothing(s: State, s1: State, id: u64, o: Oracle)
    requires s1 == Lookup(s, id, o.junk).0 && IndexOf(s.threads, id) < 0
    ensures HandleGet(s, id, o) == (s1, FrameOf(Failed(NFND)))
  {}

  lemma GetSomething(s: State, s1: State, id: u64, view: Thread, data: bytes, o: Oracle)
    requires s1 == Lookup(s, id, o.junk).0 && IndexOf(s.threads, id) >= 0
    requires s1.threads[IndexOf(s.threads, id)] == view && data == GetReply(view, o.pads)
    ensures HandleGet(s, id, o) == (s1, FrameOf(CommandResult(data, OK)))
  {
    GetReplyNotEmpty(view, o.pads);
  }

  lemma GetReplyNotEmpty(t: Thread, pads: seq<Padding>)
    ensures GetReply(t, pads) != []
  {}

  lemma {:induction false} LoadAllSnoc(dirs: Dirs, order: seq<u64>, id: u64)
    ensures LoadAll(dirs, order + [id])
         == LoadAll(dirs, order) + Loaded(dirs, id)
  {
    if order == [] {
      assert order + [id] == [id];
      assert LoadAll(dirs, []) == [];
    } else {
      assert (order + [id])[1..] == order[1..] + [id];
      LoadAllSnoc(dirs, order[1..], id);
    }
  }

  lemma ViewsSnoc(ts: seq<LeThread>, t: LeThread)
    ensures Views(ts + [t]) == Views(ts) + [t.View()]
  {}

  /** One directory of the walk: a thread with its author, or nothing. */
  method LoadDirectory(disk: Disk, id: u64) returns (t: LeThread?)
    ensures t == null <==> LoadThread(disk.dirs, id).None?
    ensures t != null ==> fresh(t) && t.View() == LoadAuthor(disk.dirs, LoadThread(disk.dirs, id).value)
  {
    t := disk.LethreadLoad(id);
    if t != null {
      disk.LeauthorLoad(t);
    }
  }

  function Loaded(dirs: Dirs, id: u64): seq<Thread> {
    if LoadThread(dirs, id).Some? then [LoadAuthor(dirs, LoadThread(dirs, id).value)] else []
  }

  method PushDirectory(disk: Disk, threads: seq<LeThread>, id: u64) returns (more: seq<LeThread>)
    ensures forall t :: t in more ==> t in threads || fresh(t)
    ensures Views(more) == Views(threads) + Loaded(disk.dirs, id)
  {
    var t := LoadDirectory(disk, id);
    if t == null {
      return threads;
    }
    ViewsSnoc(threads, t);
    more := threads + [t];
  }

  /** The directory walk of `startup`. */
  method LoadThreads(disk: Disk, order: seq<u64>) returns (threads: seq<LeThread>)
    ensures forall t :: t in threads ==> fresh(t)
    ensures Views(threads) == LoadAll(disk.dirs, order)
  {
    threads := [];
    var k := 0;
    while k < |order|
      invariant 0 <= k <= |order| && forall t :: t in threads ==> fresh(t)
      invariant Views(threads) == LoadAll(disk.dirs, order[..k])
    {
      LoadAllSnoc(disk.dirs, order[..k], order[k]);
      assert order[..k + 1] == order[..k] + [order[k]];
      threads := PushDirectory(disk, threads, order[k]);
      k := k + 1;
    }
    assert order[..k] == order;
  }

  /** Distinct directories load as threads with distinct ids below the counter. */
  lemma {:induction false} LoadAllDistinct(dirs: Dirs, order: seq<u64>, bound: u64)
    requires DiskIdsBelow(dirs, bound)
    requires forall k :: 0 <= k < |order| ==> order[k] in dirs
    requires forall j, k :: 0 <= j < k < |order| ==> order[j] != order[k]
    ensures forall i :: 0 <= i < |LoadAll(dirs, order)| ==>
      LoadAll(dirs, order)[i].id in order && LoadAll(dirs, order)[i].id < bound
    ensures DistinctIds(LoadAll(dirs, order))
    decreases |order|
  {
    if order != [] {
      LoadAllDistinct(dirs, order[1..], bound);
      assert order == [order[0]] + order[1..];
      assert order[0] !in order[1..];
    }
  }
}
