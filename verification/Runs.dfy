/** Whole runs of the server: refinement of the eager forum, restarts, crashes, and ids that are never reused. */
module Runs {
  import opened Bytes
  import opened Forum
  import opened ForumIo
  import opened Wire
  import opened Store
  import opened Eager

  ghost predicate Drained(s: State) {
    s.infoQ == [] && s.authorQ == [] && s.msgQ == []
  }

  // ---------------------------------------------------------------------- restarts

  /** A thread whose info and author files are current loads as itself, unloaded and with its topic cut. */
  lemma LoadsSaved(e: Thread, dirs: Dirs)
    requires GoodThread(e) && InfoSaved(e, DirOf(dirs, e.id)) && AuthorSaved(e, DirOf(dirs, e.id))
    ensures LoadThread(dirs, e.id).Some?
    ensures LoadAuthor(dirs, LoadThread(dirs, e.id).value) == Reloaded(e).(messages := [])
  {
    AuthorRoundTrip(e.author.value);
  }

  lemma DrainedIsSaved(s: State, f: EagerForum, i: nat)
    requires Simulates(s, f) && Drained(s) && i < |f.threads|
    ensures f.threads[i].id in s.dirs
    ensures InfoSaved(f.threads[i], DirOf(s.dirs, f.threads[i].id))
    ensures AuthorSaved(f.threads[i], DirOf(s.dirs, f.threads[i].id))
  {
    assert TracksAt(s, f, i);
  }

  lemma LoadsListed(s: State, f: EagerForum, id: u64)
    requires Simulates(s, f) && Drained(s) && id in s.dirs
    ensures IndexOf(f.threads, id) >= 0 && LoadThread(s.dirs, id).Some?
    ensures LoadAuthor(s.dirs, LoadThread(s.dirs, id).value)
         == Reloaded(f.threads[IndexOf(f.threads, id)]).(messages := [])
  {
    assert HasId(f.threads, id);
    var i := IndexOf(f.threads, id);
    assert i >= 0;
    assert TracksAt(s, f, i);
    DrainedIsSaved(s, f, i);
    LoadsSaved(f.threads[i], s.dirs);
  }

  lemma {:induction false} LoadAllMatches(s: State, f: EagerForum, order: seq<u64>)
    requires Simulates(s, f) && Drained(s)
    requires forall k :: 0 <= k < |order| ==> order[k] in s.dirs
    ensures |LoadAll(s.dirs, order)| == |Reordered(f.threads, order)| == |order|
    ensures forall k :: 0 <= k < |order| ==>
      && IndexOf(f.threads, order[k]) >= 0
      && Reordered(f.threads, order)[k] == Reloaded(f.threads[IndexOf(f.threads, order[k])])
      && LoadAll(s.dirs, order)[k] == Reordered(f.threads, order)[k].(messages := [])
    decreases |order|
  {
    if order != [] {
      LoadAllMatches(s, f, order[1..]);
      LoadsListed(s, f, order[0]);
      var us, ls := Reordered(f.threads, order), LoadAll(s.dirs, order);
      assert us[1..] == Reordered(f.threads, order[1..]) && ls[1..] == LoadAll(s.dirs, order[1..]);
      assert forall k :: 1 <= k < |order| ==> order[k] == order[1..][k - 1];
    }
  }

  lemma ReloadedTracks(e: Thread, d: Dir)
    requires GoodThread(e) && InfoSaved(e, d) && AuthorSaved(e, d)
    ensures GoodThread(Reloaded(e)) && InfoSaved(Reloaded(e), d) && AuthorSaved(Reloaded(e), d)
  {
    CutTopicExact(e.topic);
  }

  lemma RestartTracks(s: State, f: EagerForum, graceful: bool, order: seq<u64>, k: nat)
    requires Simulates(s, f) && Drained(s) && Listing(s.dirs, order) && k < |order|
    ensures |Reboot(s, graceful, order).threads| == |Reordered(f.threads, order)| == |order|
    ensures TracksAt(Reboot(s, graceful, order), f.(threads := Reordered(f.threads, order)), k)
    ensures Reordered(f.threads, order)[k].id == order[k]
  {
    LoadAllMatches(s, f, order);
    var i := IndexOf(f.threads, order[k]);
    assert TracksAt(s, f, i);
    DrainedIsSaved(s, f, i);
    ReloadedTracks(f.threads[i], DirOf(s.dirs, order[k]));
  }

  /** A restart with drained queues reproduces the forum: whole threads, in listing order, topics cut. */
  lemma SimRestart(s: State, f: EagerForum, graceful: bool, order: seq<u64>)
    requires Simulates(s, f) && Drained(s) && Listing(s.dirs, order)
    ensures Simulates(Reboot(s, graceful, order), f.(threads := Reordered(f.threads, order)))
  {
    var s', f' := Reboot(s, graceful, order), f.(threads := Reordered(f.threads, order));
    MetaRoundTrip(s.nextId);
    LoadAllMatches(s, f, order);
    forall k | 0 <= k < |f'.threads|
      ensures TracksAt(s', f', k) && f'.threads[k].id == order[k] && f'.threads[k].id < f'.nextId
    {
      RestartTracks(s, f, graceful, order, k);
    }
    forall id | id in s'.dirs ensures HasId(f'.threads, id) {
      var k :| 0 <= k < |order| && order[k] == id;
      assert f'.threads[k].id == id;
    }
  }

  function IdSet(ids: seq<u64>): set<u64> {
    set x | x in ids
  }

  ghost predicate Distinct(ids: seq<u64>) {
    forall i, j :: 0 <= i < j < |ids| ==> ids[i] != ids[j]
  }

  lemma {:induction false} DistinctSize(a: seq<u64>)
    requires Distinct(a)
    ensures |IdSet(a)| == |a|
  {
    if a != [] {
      DistinctSize(a[1..]);
      assert a == [a[0]] + a[1..];
      assert IdSet(a) == {a[0]} + IdSet(a[1..]);
      assert a[0] !in IdSet(a[1..]);
    }
  }

  /** A listing of a drained server names each thread once. */
  lemma ListingNamesThreads(s: State, f: EagerForum, order: seq<u64>)
    requires Simulates(s, f) && Drained(s) && Listing(s.dirs, order)
    ensures |order| == |f.threads|
    ensures forall i :: 0 <= i < |f.threads| ==> f.threads[i].id in order
  {
    var ids := IdsOf(f.threads);
    forall i | 0 <= i < |ids| ensures ids[i] in order && f.threads[i].id in order {
      DrainedIsSaved(s, f, i);
    }
    forall x | x in order ensures x in ids {
      assert HasId(f.threads, x);
      var i :| 0 <= i < |f.threads| && f.threads[i].id == x;
      assert ids[i] == x;
    }
    assert IdSet(ids) == IdSet(order);
    DistinctSize(ids);
    DistinctSize(order);
  }

  /** Nothing is lost: each old thread is in the restarted forum, with its topic cut to 64 bytes. */
  lemma RestartKeepsThread(s: State, f: EagerForum, order: seq<u64>, i: nat)
    requires Simulates(s, f) && Drained(s) && Listing(s.dirs, order) && i < |f.threads|
    ensures Reloaded(f.threads[i]) in Reordered(f.threads, order)
    ensures Reloaded(f.threads[i]) == f.threads[i] <==> |f.threads[i].topic| <= 64
  {
    ListingNamesThreads(s, f, order);
    LoadAllMatches(s, f, order);
    IndexIs(f.threads, i);
    CutTopicExact(f.threads[i].topic);
    var k :| 0 <= k < |order| && order[k] == f.threads[i].id;
    assert Reordered(f.threads, order)[k] == Reloaded(f.threads[i]);
  }

  /** Nothing is invented: the restarted forum is as long as the old one and each of its threads comes from it. */
  lemma RestartAddsNothing(s: State, f: EagerForum, order: seq<u64>, k: nat)
    requires Simulates(s, f) && Drained(s) && Listing(s.dirs, order) && k < |Reordered(f.threads, order)|
    ensures |Reordered(f.threads, order)| == |f.threads|
    ensures exists i :: 0 <= i < |f.threads| && Reordered(f.threads, order)[k] == Reloaded(f.threads[i])
  {
    ListingNamesThreads(s, f, order);
    LoadAllMatches(s, f, order);
    var i := IndexOf(f.threads, order[k]);
    assert 0 <= i < |f.threads| && Reordered(f.threads, order)[k] == Reloaded(f.threads[i]);
  }

  lemma {:induction false} SimDrainInfo(s: State, f: EagerForum)
    requires Simulates(s, f)
    ensures var s' := DrainInfo(s);
      Simulates(s', f) && s'.infoQ == [] && s'.authorQ == s.authorQ && s'.msgQ == s.msgQ
    decreases |s.infoQ|
  {
    if s.infoQ != [] {
      SimInfoWriter(s, f);
      hide Simulates;
      SimDrainInfo(WriteInfo(s), f);
    }
  }

  lemma {:induction false} SimDrainAuthors(s: State, f: EagerForum)
    requires Simulates(s, f)
    ensures var s' := DrainAuthors(s);
      Simulates(s', f) && s'.authorQ == [] && s'.infoQ == s.infoQ && s'.msgQ == s.msgQ
    decreases |s.authorQ|
  {
    if s.authorQ != [] {
      SimAuthorWriter(s, f);
      hide Simulates;
      SimDrainAuthors(WriteAuthor(s), f);
    }
  }

  lemma {:induction false} SimDrainMessages(s: State, f: EagerForum)
    requires Simulates(s, f)
    ensures var s' := DrainMessages(s);
      Simulates(s', f) && s'.msgQ == [] && s'.infoQ == s.infoQ && s'.authorQ == s.authorQ
    decreases |s.msgQ|
  {
    if s.msgQ != [] {
      SimMessageWriter(s, f);
      hide Simulates;
      SimDrainMessages(WriteMessage(s), f);
    }
  }

  /** Letting the writers run until their queues are empty changes nothing a client can see. */
  lemma DrainingDrains(s: State, f: EagerForum)
    requires Simulates(s, f)
    ensures Drained(DrainAll(s)) && Simulates(DrainAll(s), f)
  {
    hide Simulates;
    SimDrainInfo(s, f);
    SimDrainAuthors(DrainInfo(s), f);
    SimDrainMessages(DrainAuthors(DrainInfo(s)), f);
  }

  // ----------------------------------------------------------------------- crashes

  lemma {:induction false} LoadAllHas(dirs: Dirs, order: seq<u64>, id: u64)
    requires id in order && LoadThread(dirs, id).Some?
    ensures LoadAuthor(dirs, LoadThread(dirs, id).value) in LoadAll(dirs, order)
    decreases |order|
  {
    if order[0] != id {
      LoadAllHas(dirs, order[1..], id);
    }
  }

  lemma {:induction false} LoadAllOnly(dirs: Dirs, order: seq<u64>, t: Thread)
    requires t in LoadAll(dirs, order)
    ensures exists id :: id in order && LoadThread(dirs, id).Some? && t == LoadAuthor(dirs, LoadThread(dirs, id).value)
    decreases |order|
  {
    if LoadThread(dirs, order[0]).Some? && t == LoadAuthor(dirs, LoadThread(dirs, order[0]).value) {
      assert order[0] in order;
    } else {
      LoadAllOnly(dirs, order[1..], t);
    }
  }

  /** What the files must be for the thread to come back: both there, the counter current, every message logged. */
  ghost predicate OnDisk(e: Thread, d: Dir, pending: seq<Message>) {
    StoredNext(d) == Some(e.next) && d.author.Some? && pending == []
  }

  lemma OnDiskIsSaved(e: Thread, d: Dir, pending: seq<Message>)
    requires FilesAreTrue(e, d) && OnDisk(e, d, pending)
    ensures InfoSaved(e, d) && AuthorSaved(e, d)
  {
    assert e.(next := StoredNext(d).value) == e;
  }

  lemma OnDiskComesBack(s: State, f: EagerForum, i: nat, graceful: bool, order: seq<u64>, junk: seq<Message>)
    requires Simulates(s, f) && i < |f.threads| && Listing(s.dirs, order)
    requires OnDisk(f.threads[i], DirOf(s.dirs, f.threads[i].id), PendingOf(s.msgQ, f.threads[i].id))
    ensures ComesBack(f.threads[i], Reboot(s, graceful, order), junk)
  {
    var e := f.threads[i];
    assert TracksAt(s, f, i);
    OnDiskIsSaved(e, DirOf(s.dirs, e.id), PendingOf(s.msgQ, e.id));
    LoadsSaved(e, s.dirs);
    LoadAllHas(s.dirs, order, e.id);
    CutTopicExact(e.topic);
    var t := Reloaded(e).(messages := []);
    TouchCompletes(t, Reloaded(e), s.dirs, [], junk);
    assert t in Reboot(s, graceful, order).threads;
  }

  /** A restarted thread came from the directory of its own id. */
  lemma LoadedFromItsDirectory(s: State, f: EagerForum, order: seq<u64>, t: Thread)
    requires Simulates(s, f) && Listing(s.dirs, order) && t in LoadAll(s.dirs, order)
    ensures LoadThread(s.dirs, t.id).Some? && t == LoadAuthor(s.dirs, LoadThread(s.dirs, t.id).value)
  {
    LoadAllOnly(s.dirs, order, t);
    var id :| id in order && LoadThread(s.dirs, id).Some? && t == LoadAuthor(s.dirs, LoadThread(s.dirs, id).value);
    assert HasId(f.threads, id);
    var i :| 0 <= i < |f.threads| && f.threads[i].id == id;
    assert TracksAt(s, f, i);
  }

  /** The counter is the info file's and the author the author file's, now and after the first lookup. */
  lemma FieldsComeFromFiles(dirs: Dirs, t: Thread, junk: seq<Message>)
    requires LoadThread(dirs, t.id).Some? && t == LoadAuthor(dirs, LoadThread(dirs, t.id).value)
    ensures t.messages == [] && StoredNext(DirOf(dirs, t.id)) == Some(t.next)
    ensures Touch(t, dirs, junk).author.Some? ==> DirOf(dirs, t.id).author.Some?
  {}

  lemma TouchLoads(t: Thread, dirs: Dirs, b: bytes, n: nat, junk: seq<Message>)
    requires t.messages == [] && MessageCount(t) == n > 0
    ensures DirOf(dirs, t.id).log == Some(b) ==> Touch(t, dirs, junk).messages == LoadRecords(b, n, [], junk)
    ensures DirOf(dirs, t.id).log == None ==> Touch(t, dirs, junk).messages == []
  {
    hide LoadRecords;
  }

  lemma TextsOfPrefix(e: Thread, n: nat)
    requires GoodThread(e) && n <= |e.messages|
    ensures TextsStored(e.messages[..n])
    ensures n < |e.messages| ==> e.messages[n].text != []
  {
    assert n < |e.messages| ==> GoodMessage(e.messages[n]);
  }

  /** A history with a message still pending does not load: the place of that message is left without a text. */
  lemma PendingLeavesAGap(e: Thread, t: Thread, dirs: Dirs, pending: seq<Message>, junk: seq<Message>)
    requires GoodThread(e) && LogTracks(e, DirOf(dirs, e.id), pending) && pending != []
    requires t.messages == [] && t.id == e.id && t.first == e.first && t.next == e.next
    ensures Touch(t, dirs, junk).messages != e.messages
  {
    var n, k := |e.messages|, |e.messages| - |pending|;
    CountIsLength(e);
    TextsOfPrefix(e, k);
    hide GoodThread, LoadRecords, EncodeRecords, Touch;
    TouchLoads(t, dirs, EncodeRecords(e.messages[..k]), n, junk);
    ShortLogLeavesUnread(e.messages[..k], n, junk);
  }

  /** Whatever a short load leaves in memory, a thread that comes back has its files complete. */
  lemma ComesBackOnlyFromDisk(s: State, f: EagerForum, i: nat, order: seq<u64>, t: Thread, junk: seq<Message>)
    requires Simulates(s, f) && i < |f.threads| && Listing(s.dirs, order)
    requires t in LoadAll(s.dirs, order) && Touch(t, s.dirs, junk) == Reloaded(f.threads[i])
    ensures OnDisk(f.threads[i], DirOf(s.dirs, f.threads[i].id), PendingOf(s.msgQ, f.threads[i].id))
  {
    var e := f.threads[i];
    assert TracksAt(s, f, i);
    LoadedFromItsDirectory(s, f, order, t);
    FieldsComeFromFiles(s.dirs, t, junk);
    hide Touch;
    if PendingOf(s.msgQ, e.id) != [] {
      PendingLeavesAGap(e, t, s.dirs, PendingOf(s.msgQ, e.id), junk);
    }
  }

  /**
    Exactly which threads a crash spares: a thread comes back whole if and only if both its files are there, the
    stored counter is current and no message of it is still queued. What a short load leaves in memory is no matter.
   */
  lemma CrashSparesExactlyTheSaved(
    s: State, f: EagerForum, i: nat, graceful: bool, order: seq<u64>, junk: seq<Message>
  )
    requires Simulates(s, f) && i < |f.threads| && Listing(s.dirs, order)
    ensures ComesBack(f.threads[i], Reboot(s, graceful, order), junk)
       <==> OnDisk(f.threads[i], DirOf(s.dirs, f.threads[i].id), PendingOf(s.msgQ, f.threads[i].id))
  {
    var e := f.threads[i];
    if OnDisk(e, DirOf(s.dirs, e.id), PendingOf(s.msgQ, e.id)) {
      OnDiskComesBack(s, f, i, graceful, order, junk);
    }
    if t :| t in LoadAll(s.dirs, order) && Touch(t, s.dirs, junk) == Reloaded(e) {
      ComesBackOnlyFromDisk(s, f, i, order, t, junk);
    }
  }

  /** Some thread of the restarted server becomes e, topic cut, when it is first looked up. */
  ghost predicate ComesBack(e: Thread, s: State, junk: seq<Message>) {
    exists t :: t in s.threads && Touch(t, s.dirs, junk) == Reloaded(e)
  }

  /** In particular a thread with nothing in any save queue survives a crash at any moment. */
  lemma SavedThreadSurvivesCrash(s: State, f: EagerForum, i: nat, graceful: bool, order: seq<u64>, junk: seq<Message>)
    requires Simulates(s, f) && i < |f.threads| && Listing(s.dirs, order)
    requires f.threads[i].id !in s.infoQ && f.threads[i].id !in s.authorQ
    requires PendingOf(s.msgQ, f.threads[i].id) == []
    ensures ComesBack(f.threads[i], Reboot(s, graceful, order), junk)
  {
    assert TracksAt(s, f, i);
    OnDiskComesBack(s, f, i, graceful, order, junk);
  }

  /**
    A crash after the info file but before the author file: the thread is back without its author, and from then
    on every token at all passes as the author's.
   */
  lemma LostAuthorTrustsEveryToken(
    s: State, f: EagerForum, i: nat, graceful: bool, order: seq<u64>, token: bytes, junk: seq<Message>
  )
    requires Simulates(s, f) && i < |f.threads| && Listing(s.dirs, order)
    requires DirOf(s.dirs, f.threads[i].id).info.Some? && DirOf(s.dirs, f.threads[i].id).author.None?
    ensures exists t ::
      && t in Reboot(s, graceful, order).threads && t.id == f.threads[i].id
      && PostFlag(Touch(t, s.dirs, junk), Some(token)) == 0xffff_fff9
  {
    var e := f.threads[i];
    assert TracksAt(s, f, i);
    assert e.id in s.dirs;
    var t := LoadThread(s.dirs, e.id).value;
    LoadAllHas(s.dirs, order, e.id);
    assert LoadAuthor(s.dirs, t) == t;
    AuthorlessTouch(t, s.dirs, junk);
    assert t in Reboot(s, graceful, order).threads;
  }

  lemma AuthorlessTouch(t: Thread, dirs: Dirs, junk: seq<Message>)
    requires t.author.None? && DirOf(dirs, t.id).author.None?
    ensures Touch(t, dirs, junk).author.None?
  {}

  /** The log file holds the first messages of the history and the message queue the rest, in order. */
  ghost predicate LogThenPending(s: State, i: nat)
    requires i < |s.threads|
  {
    var t := s.threads[i];
    var pending := PendingOf(s.msgQ, t.id);
    && |pending| <= |t.messages|
    && t.messages[|t.messages| - |pending|..] == pending
    && LogBytes(DirOf(s.dirs, t.id)) == EncodeRecords(t.messages[..|t.messages| - |pending|])
    && LogBytes(DirOf(s.dirs, t.id)) + EncodeRecords(pending) == EncodeRecords(t.messages)
  }

  lemma LogIsPrefix(s: State, f: EagerForum, i: nat)
    requires Simulates(s, f) && i < |f.threads|
    requires s.threads[i].messages != [] || s.threads[i].next == s.threads[i].first
    ensures LogThenPending(s, i)
  {
    assert TracksAt(s, f, i);
    var t, e := s.threads[i], f.threads[i];
    var pending := PendingOf(s.msgQ, t.id);
    assert t == e by {
      assert e.next == e.first + |e.messages|;
    }
    EncodeRecordsAppend(Logged(e.messages, pending), pending);
  }

  // -------------------------------------------------------------------- whole runs

  ghost predicate PacketOk(data: bytes, o: Oracle) {
    |data| <= MAX_PACKET_SIZE && GoodToken(o.token)
  }

  /** Every packet within the size limit whose handling C defines, every writer step, every drained restart. */
  ghost predicate CleanEvent(s: State, e: Event) {
    match e
    case Packet(data, o) => PacketOk(data, o) && Step(s, e).1 != Some(Undefined)
    case Restart(_, order) => Drained(s) && Listing(s.dirs, order)
    case _ => true
  }

  ghost predicate CleanRun(s: State, es: seq<Event>)
    decreases |es|
  {
    es == [] || (CleanEvent(s, es[0]) && CleanRun(Step(s, es[0]).0, es[1..]))
  }

  function Final(s: State, es: seq<Event>): State
    decreases |es|
  {
    if es == [] then s else Final(Step(s, es[0]).0, es[1..])
  }

  function Replies(s: State, es: seq<Event>): seq<Option<Reply>>
    decreases |es|
  {
    if es == [] then [] else [Step(s, es[0]).1] + Replies(Step(s, es[0]).0, es[1..])
  }

  function EagerFinal(f: EagerForum, es: seq<Event>): EagerForum
    decreases |es|
  {
    if es == [] then f else EagerFinal(EagerStep(f, es[0]).0, es[1..])
  }

  function EagerReplies(f: EagerForum, es: seq<Event>): seq<Option<Reply>>
    decreases |es|
  {
    if es == [] then [] else [EagerStep(f, es[0]).1] + EagerReplies(EagerStep(f, es[0]).0, es[1..])
  }

  lemma CStrShorter(s: bytes)
    ensures |CStr(s)| <= |s|
  {}

  lemma TopicIsShort(data: bytes)
    requires ReadRequest(data).Create?
    ensures NulFree(ReadRequest(data).topic) && |ReadRequest(data).topic| <= |data|
  {}

  lemma TextIsGood(data: bytes)
    requires ReadRequest(data).Post? && ReadRequest(data).body.Text?
    ensures NulFree(ReadRequest(data).body.text) && TextFits(ReadRequest(data).body.text)
  {}

  lemma SimPacket(s: State, f: EagerForum, data: bytes, o: Oracle, k: nat)
    requires Simulates(s, f) && Room(f, k + 1) && PacketOk(data, o)
    ensures Step(s, Packet(data, o)).1 == EagerStep(f, Packet(data, o)).1
    ensures Simulates(Step(s, Packet(data, o)).0, EagerStep(f, Packet(data, o)).0)
    ensures Room(EagerStep(f, Packet(data, o)).0, k)
  {
    var r := ReadRequest(data);
    match r
    case Get(id) => SimLookup(s, f, id, o.junk);
    case Create(topic) =>
      TopicIsShort(data);
      CStrShorter(topic);
      SimCreate(s, f, topic, o, k);
    case Find(part) =>
      forall i | 0 <= i < |f.threads|
        ensures s.threads[i].id == f.threads[i].id && s.threads[i].topic == f.threads[i].topic
      {
        assert TracksAt(s, f, i);
      }
      SameMatches(s.threads, f.threads, part);
    case Post(id, body) =>
      if body.Text? { TextIsGood(data); }
      SimPost(s, f, id, body, o, k);
    case _ =>
  }

  lemma SimStep(s: State, f: EagerForum, e: Event, k: nat)
    requires Simulates(s, f) && Room(f, k + 1) && CleanEvent(s, e)
    ensures Step(s, e).1 == EagerStep(f, e).1
    ensures Simulates(Step(s, e).0, EagerStep(f, e).0)
    ensures Room(EagerStep(f, e).0, k)
  {
    match e
    case Packet(data, o) => SimPacket(s, f, data, o, k);
    case InfoWriter => SimInfoWriter(s, f);
    case AuthorWriter => SimAuthorWriter(s, f);
    case MessageWriter => SimMessageWriter(s, f);
    case Restart(graceful, order) =>
      SimRestart(s, f, graceful, order);
      LoadAllMatches(s, f, order);
  }

  /** Queues, files, lazy loading and drained restarts are invisible: byte for byte the eager forum's replies. */
  lemma {:induction false} ServerRefinesEagerForum(s: State, f: EagerForum, es: seq<Event>)
    requires Simulates(s, f) && CleanRun(s, es) && Room(f, |es|)
    ensures Replies(s, es) == EagerReplies(f, es)
    ensures Simulates(Final(s, es), EagerFinal(f, es))
    decreases |es|
  {
    if es != [] {
      SimStep(s, f, es[0], |es| - 1);
      ServerRefinesEagerForum(Step(s, es[0]).0, EagerStep(f, es[0]).0, es[1..]);
    }
  }

  const EMPTY := EagerForum([], 0)

  /** The same from the very first start, for any run short enough not to exhaust a 64-bit counter. */
  lemma RunsFromTheFirstStart(es: seq<Event>)
    requires CleanRun(INITIAL, es) && |es| + TWO_32 < TWO_64
    ensures Replies(INITIAL, es) == EagerReplies(EMPTY, es)
    ensures Simulates(Final(INITIAL, es), EagerFinal(EMPTY, es))
  {
    assert Simulates(INITIAL, EMPTY);
    ServerRefinesEagerForum(INITIAL, EMPTY, es);
  }

  /** After every step of every run, for each thread whose history is in memory. */
  lemma LogIsAlwaysPrefix(es: seq<Event>, i: nat)
    requires CleanRun(INITIAL, es) && |es| + TWO_32 < TWO_64 && i < |Final(INITIAL, es).threads|
    requires var t := Final(INITIAL, es).threads[i]; t.messages != [] || t.next == t.first
    ensures LogThenPending(Final(INITIAL, es), i)
  {
    RunsFromTheFirstStart(es);
    LogIsPrefix(Final(INITIAL, es), EagerFinal(EMPTY, es), i);
  }

  // ------------------------------------------------------- ids across arbitrary crashes

  ghost predicate MemoryIdsBelow(s: State) {
    && MetaValue(s.meta) == s.nextId
    && (forall i :: 0 <= i < |s.threads| ==> s.threads[i].id < s.nextId)
    && (forall k :: 0 <= k < |s.msgQ| ==> s.msgQ[k].owner < s.nextId)
  }

  ghost predicate DiskIdsBelow(dirs: Dirs, bound: u64) {
    && (forall id :: id in dirs ==> id < bound)
    && (forall id :: id in dirs && LoadThread(dirs, id).Some? ==> LoadThread(dirs, id).value.id == id)
  }

  /** What survives any crash: the counter on disk exceeds every id in memory, in a queue or on disk. */
  ghost predicate IdsBelowCounter(s: State) {
    MemoryIdsBelow(s) && DiskIdsBelow(s.dirs, s.nextId)
  }

  lemma InfoKeepsId(t: Thread, authorId: u64)
    ensures DecodeInfo(EncodeInfo(t, authorId)).Some? ==> DecodeInfo(EncodeInfo(t, authorId)).value.id == t.id
  {
    EatU64Prefix(t.id, U64(authorId) + (U64(t.first) + (U64(t.next) + (U64(|t.topic|) + t.topic))));
  }

  lemma {:induction false} LoadAllIds(dirs: Dirs, order: seq<u64>, bound: u64)
    requires forall k :: 0 <= k < |order| ==> order[k] in dirs
    requires forall id :: id in dirs ==> id < bound
    requires forall id :: id in dirs && LoadThread(dirs, id).Some? ==> LoadThread(dirs, id).value.id == id
    ensures forall i :: 0 <= i < |LoadAll(dirs, order)| ==> LoadAll(dirs, order)[i].id < bound
    decreases |order|
  {
    if order != [] {
      LoadAllIds(dirs, order[1..], bound);
    }
  }

  /** Any packet within the size limit, any writer step, any stop or crash at any moment. */
  ghost predicate AnyEvent(s: State, e: Event) {
    e.Restart? ==> Listing(s.dirs, e.order)
  }

  function CreatedId(s: State, e: Event): Option<u64> {
    if e.Packet? && ReadRequest(e.data).Create? then Some(s.nextId) else None
  }

  lemma SaveInfoIds(dirs: Dirs, t: Thread, id: u64)
    requires id in dirs && LoadThread(dirs, id).Some? ==> LoadThread(dirs, id).value.id == id
    ensures LoadThread(SaveInfo(dirs, t), id).Some? && id in SaveInfo(dirs, t)
        ==> LoadThread(SaveInfo(dirs, t), id).value.id == id
  {
    if t.author.Some? {
      InfoKeepsId(t, t.author.value.id);
    }
  }

  lemma LookupKeepsIds(s: State, id: u64, junk: seq<Message>)
    requires MemoryIdsBelow(s)
    ensures MemoryIdsBelow(Lookup(s, id, junk).0)
  {}

  lemma NewThreadKeepsIds(s: State, t: Thread, next: u64)
    requires MemoryIdsBelow(s) && t.id == s.nextId && next == s.nextId + 1
    ensures MemoryIdsBelow(WithThread(s, t, next))
  {
    var s' := WithThread(s, t, next);
    MetaRoundTrip(next);
    assert MetaValue(s'.meta) == s'.nextId;
  }

  lemma CreateKeepsIds(s: State, topic: bytes, o: Oracle)
    requires MemoryIdsBelow(s) && s.nextId + 1 < TWO_64
    ensures MemoryIdsBelow(HandleCreate(s, topic, o).0) && HandleCreate(s, topic, o).0.nextId == s.nextId + 1
  {
    var next := s.nextId + 1;
    assert next % TWO_64 == next;
    var t := CreatedThread(s.nextId, topic, o);
    NewThreadKeepsIds(s, t, next);
  }

  lemma PostKeepsIds(s: State, id: u64, body: Body, o: Oracle)
    requires MemoryIdsBelow(s)
    ensures MemoryIdsBelow(HandlePost(s, id, body, o).0) && HandlePost(s, id, body, o).0.nextId == s.nextId
  {
    LookupKeepsIds(s, id, o.junk);
  }

  lemma MemoryIdsBelowPacket(s: State, r: Request, o: Oracle)
    requires MemoryIdsBelow(s) && s.nextId + 1 < TWO_64
    ensures MemoryIdsBelow(Handle(s, r, o).0)
    ensures Handle(s, r, o).0.dirs == s.dirs
    ensures Handle(s, r, o).0.nextId == s.nextId + if r.Create? then 1 else 0
  {
    match r
    case Get(id) => LookupKeepsIds(s, id, o.junk);
    case Post(id, body) => PostKeepsIds(s, id, body, o);
    case Create(topic) => CreateKeepsIds(s, topic, o);
    case _ =>
  }

  lemma DiskIdsBelowMore(dirs: Dirs, a: u64, b: u64)
    requires DiskIdsBelow(dirs, a) && a <= b
    ensures DiskIdsBelow(dirs, b)
  {}

  lemma IdsBelowCounterPacket(s: State, r: Request, o: Oracle)
    requires IdsBelowCounter(s) && s.nextId + 1 < TWO_64
    ensures IdsBelowCounter(Handle(s, r, o).0)
    ensures Handle(s, r, o).0.nextId == s.nextId + if r.Create? then 1 else 0
  {
    MemoryIdsBelowPacket(s, r, o);
    DiskIdsBelowMore(s.dirs, s.nextId, Handle(s, r, o).0.nextId);
  }

  lemma IdsBelowCounterMessage(s: State)
    requires IdsBelowCounter(s)
    ensures IdsBelowCounter(WriteMessage(s)) && WriteMessage(s).nextId == s.nextId
  {}

  lemma IdsBelowCounterAuthor(s: State)
    requires IdsBelowCounter(s)
    ensures IdsBelowCounter(WriteAuthor(s)) && WriteAuthor(s).nextId == s.nextId
  {}

  lemma IdsBelowCounterInfo(s: State)
    requires IdsBelowCounter(s)
    ensures IdsBelowCounter(WriteInfo(s)) && WriteInfo(s).nextId == s.nextId
  {
    if s.infoQ != [] && IndexOf(s.threads, s.infoQ[0]) >= 0 {
      var t := s.threads[IndexOf(s.threads, s.infoQ[0])];
      forall id ensures LoadThread(SaveInfo(s.dirs, t), id).Some? && id in SaveInfo(s.dirs, t)
            ==> LoadThread(SaveInfo(s.dirs, t), id).value.id == id
      {
        SaveInfoIds(s.dirs, t, id);
      }
    }
  }

  lemma IdsBelowCounterRestart(s: State, graceful: bool, order: seq<u64>)
    requires IdsBelowCounter(s) && Listing(s.dirs, order)
    ensures IdsBelowCounter(Reboot(s, graceful, order)) && Reboot(s, graceful, order).nextId == s.nextId
  {
    MetaRoundTrip(s.nextId);
    LoadAllIds(s.dirs, order, s.nextId);
  }

  lemma IdsBelowCounterStep(s: State, e: Event)
    requires IdsBelowCounter(s) && AnyEvent(s, e) && s.nextId + 1 < TWO_64
    ensures IdsBelowCounter(Step(s, e).0)
    ensures Step(s, e).0.nextId == s.nextId + if CreatedId(s, e).Some? then 1 else 0
  {
    match e
    case Packet(data, o) => IdsBelowCounterPacket(s, ReadRequest(data), o);
    case InfoWriter => IdsBelowCounterInfo(s);
    case AuthorWriter => IdsBelowCounterAuthor(s);
    case MessageWriter => IdsBelowCounterMessage(s);
    case Restart(graceful, order) => IdsBelowCounterRestart(s, graceful, order);
  }

  ghost predicate AnyRun(s: State, es: seq<Event>)
    decreases |es|
  {
    es == [] || (AnyEvent(s, es[0]) && AnyRun(Step(s, es[0]).0, es[1..]))
  }

  function CreatedIds(s: State, es: seq<Event>): seq<u64>
    decreases |es|
  {
    if es == [] then []
    else
      (if CreatedId(s, es[0]).Some? then [CreatedId(s, es[0]).value] else [])
        + CreatedIds(Step(s, es[0]).0, es[1..])
  }

  /** Over any run, crashes included, created ids strictly increase, above every id already in use. */
  lemma {:induction false} IdsNeverReused(s: State, es: seq<Event>)
    requires IdsBelowCounter(s) && AnyRun(s, es) && s.nextId + |es| < TWO_64
    ensures IdsBelowCounter(Final(s, es))
    ensures forall k :: 0 <= k < |CreatedIds(s, es)| ==> s.nextId <= CreatedIds(s, es)[k]
    ensures forall j, k :: 0 <= j < k < |CreatedIds(s, es)| ==> CreatedIds(s, es)[j] < CreatedIds(s, es)[k]
    decreases |es|
  {
    if es != [] {
      var s' := Step(s, es[0]).0;
      IdsBelowCounterStep(s, es[0]);
      IdsNeverReused(s', es[1..]);
      var rest := CreatedIds(s', es[1..]);
      assert CreatedIds(s, es) == (if CreatedId(s, es[0]).Some? then [s.nextId] else []) + rest;
    }
  }

  /** In particular from the first start, whatever is written, stopped, crashed or restarted on the way. */
  lemma IdsFromTheFirstStart(es: seq<Event>)
    requires AnyRun(INITIAL, es) && |es| < TWO_64
    ensures forall j, k :: 0 <= j < k < |CreatedIds(INITIAL, es)| ==>
      CreatedIds(INITIAL, es)[j] < CreatedIds(INITIAL, es)[k]
  {
    assert IdsBelowCounter(INITIAL);
    IdsNeverReused(INITIAL, es);
  }
}
