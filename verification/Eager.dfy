/** The forum a client should see: whole threads in memory, no queues, no files. */
module Eager {
  import opened Bytes
  import opened Forum
  import opened ForumIo
  import opened Wire
  import opened Store

  datatype EagerForum = EagerForum(threads: seq<Thread>, nextId: u64)

  function EagerHandle(f: EagerForum, r: Request, o: Oracle): (EagerForum, Reply) {
    match r
    case Get(id) =>
      var i := IndexOf(f.threads, id);
      (f, if i < 0 then StatusReply(NFND) else Frame(GetReply(f.threads[i], o.pads)))
    case Create(topic) =>
      var t := CreatedThread(f.nextId, topic, o);
      (EagerForum(f.threads + [t], (f.nextId + 1) % TWO_64), Frame(CreateReply(f.nextId, o.token, o.tail)))
    case Find(part) => (f, Frame(FindReply(Matches(f.threads, part))))
    case Post(id, body) =>
      var i := IndexOf(f.threads, id);
      if i < 0 then (f, StatusReply(NFND)) else
      (match body
       case BadBody(status) => (f, StatusReply(status))
       case UndefinedBody => (f, Undefined)
       case Text(text, token) =>
         var t := f.threads[i];
         (f.(threads := f.threads[i := WithMessage(t, text, PostFlag(t, token))]), StatusReply(OK)))
    case Meta => (f, Frame(MetaReply(|f.threads|)))
    case Live => (f, StatusReply(OK))
    case Reject(status) => (f, StatusReply(status))
    case UndefinedRequest => (f, Undefined)
  }

  /** A restart keeps every thread, in directory order, with its topic cut to 64 bytes. */
  function Reloaded(t: Thread): Thread {
    t.(topic := CutTopic(t.topic))
  }

  function Reordered(ts: seq<Thread>, order: seq<u64>): seq<Thread> {
    if order == [] then []
    else
      var i := IndexOf(ts, order[0]);
      (if i < 0 then [] else [Reloaded(ts[i])]) + Reordered(ts, order[1..])
  }

  function EagerStep(f: EagerForum, e: Event): (EagerForum, Option<Reply>) {
    match e
    case Packet(data, o) => var (f', r) := EagerHandle(f, ReadRequest(data), o); (f', Some(r))
    case Restart(_, order) => (f.(threads := Reordered(f.threads, order)), None)
    case _ => (f, None)
  }

  // ---------------------------------------------------------- the simulation relation

  /** The messages of one thread still waiting for the message writer, in queue order. */
  function PendingOf(q: seq<Pending>, id: u64): seq<Message> {
    if q == [] then []
    else (if q[0].owner == id then [q[0].msg] else []) + PendingOf(q[1..], id)
  }

  lemma {:induction false} PendingAppend(q: seq<Pending>, p: Pending, id: u64)
    ensures PendingOf(q + [p], id) == PendingOf(q, id) + if p.owner == id then [p.msg] else []
  {
    if q == [] {
      assert q + [p] == [p];
      assert PendingOf([], id) == [];
    } else {
      var rest, last := q[1..], if p.owner == id then [p.msg] else [];
      assert (q + [p])[1..] == rest + [p];
      PendingAppend(rest, p, id);
      assert [q[0].msg] + (PendingOf(rest, id) + last) == ([q[0].msg] + PendingOf(rest, id)) + last;
    }
  }

  lemma {:induction false} PendingNone(q: seq<Pending>, id: u64)
    requires forall k :: 0 <= k < |q| ==> q[k].owner != id
    ensures PendingOf(q, id) == []
  {
    if q != [] {
      PendingNone(q[1..], id);
    }
  }

  /** The part of a history that the message writer has already appended to the log. */
  function Logged(ms: seq<Message>, pending: seq<Message>): seq<Message>
    requires |pending| <= |ms|
  {
    ms[..|ms| - |pending|]
  }

  /** In memory a thread is whole, or wholly unloaded with nothing pending. */
  ghost predicate InMemory(t: Thread, e: Thread, pending: seq<Message>) {
    t == e || (t == e.(messages := []) && pending == [])
  }

  /** The log file followed by the pending messages is the history. */
  ghost predicate LogTracks(e: Thread, d: Dir, pending: seq<Message>) {
    && |pending| <= |e.messages|
    && e.messages == Logged(e.messages, pending) + pending
    && LogBytes(d) == EncodeRecords(Logged(e.messages, pending))
  }

  ghost predicate InfoSaved(e: Thread, d: Dir) {
    && e.author.Some? && d.info.Some?
    && DecodeInfo(d.info.value) == Some(Info(e.id, e.author.value.id, e.first, e.next, CutTopic(e.topic)))
  }

  ghost predicate AuthorSaved(e: Thread, d: Dir) {
    e.author.Some? && d.author == Some(EncodeAuthor(e.author.value))
  }

  /** The counter that a readable info file stores. */
  function StoredNext(d: Dir): Option<u64> {
    if d.info.Some? && DecodeInfo(d.info.value).Some? then Some(DecodeInfo(d.info.value).value.next) else None
  }

  /** However old a file is, an info file is wrong about nothing but the counter, and an author file about nothing. */
  ghost predicate FilesAreTrue(e: Thread, d: Dir) {
    && e.author.Some?
    && (d.info.Some? ==>
         && StoredNext(d).Some? && StoredNext(d).value <= e.next
         && InfoSaved(e.(next := StoredNext(d).value), d))
    && (d.author.Some? ==> AuthorSaved(e, d))
  }

  ghost predicate TracksAt(s: State, f: EagerForum, i: nat)
    requires i < |s.threads| == |f.threads|
  {
    var e := f.threads[i];
    var d := DirOf(s.dirs, e.id);
    var pending := PendingOf(s.msgQ, e.id);
    && GoodThread(e)
    && InMemory(s.threads[i], e, pending)
    && LogTracks(e, d, pending)
    && FilesAreTrue(e, d)
    && (e.id in s.infoQ || InfoSaved(e, d))
    && (e.id in s.authorQ || AuthorSaved(e, d))
  }

  ghost predicate HasId(ts: seq<Thread>, id: u64) {
    exists i :: 0 <= i < |ts| && ts[i].id == id
  }

  ghost predicate DistinctIds(ts: seq<Thread>) {
    forall i, j :: 0 <= i < j < |ts| ==> ts[i].id != ts[j].id
  }

  /** Ids are distinct and below the persisted counter; queues and directories name only known threads. */
  ghost predicate IdsMatch(s: State, f: EagerForum) {
    && s.nextId == f.nextId == MetaValue(s.meta)
    && DistinctIds(f.threads)
    && (forall i :: 0 <= i < |f.threads| ==> f.threads[i].id < f.nextId)
    && (forall k :: 0 <= k < |s.msgQ| ==> HasId(f.threads, s.msgQ[k].owner))
    && (forall id :: id in s.dirs ==> HasId(f.threads, id))
  }

  ghost predicate AllTrack(s: State, f: EagerForum) {
    |s.threads| == |f.threads| && forall i :: 0 <= i < |f.threads| ==> TracksAt(s, f, i)
  }

  ghost predicate Simulates(s: State, f: EagerForum) {
    IdsMatch(s, f) && AllTrack(s, f)
  }

  /** No counter reaches 2^64 during k more packets. */
  ghost predicate Room(f: EagerForum, k: nat) {
    && k + TWO_32 < TWO_64 && f.nextId + k < TWO_64
    && forall i :: 0 <= i < |f.threads| ==> f.threads[i].next + k < TWO_64
  }

  lemma IndexIs(ts: seq<Thread>, i: nat)
    requires i < |ts| && DistinctIds(ts)
    ensures IndexOf(ts, ts[i].id) == i
  {
    assert IndexOf(ts, ts[i].id) >= 0;
  }

  lemma SameIndex(ts: seq<Thread>, us: seq<Thread>, id: u64)
    requires |ts| == |us| && forall k :: 0 <= k < |ts| ==> ts[k].id == us[k].id
    ensures IndexOf(ts, id) == IndexOf(us, id)
  {
    var r, q := IndexOf(ts, id), IndexOf(us, id);
    assert r >= 0 ==> us[r].id == id;
    assert q >= 0 ==> ts[q].id == id;
  }

  lemma SimIndex(s: State, f: EagerForum, id: u64)
    requires Simulates(s, f)
    ensures IndexOf(s.threads, id) == IndexOf(f.threads, id)
  {
    forall k | 0 <= k < |f.threads| ensures s.threads[k].id == f.threads[k].id {
      assert TracksAt(s, f, k);
    }
    SameIndex(s.threads, f.threads, id);
  }

  lemma RecordsNotEmpty(ms: seq<Message>)
    requires ms != []
    ensures EncodeRecords(ms) != []
  {
    assert |EncodeRecord(ms[0])| >= 20;
  }

  /** Touching a thread makes it whole: nothing is lost or doubled by loading it lazily. */
  lemma TouchCompletes(t: Thread, e: Thread, dirs: Dirs, pending: seq<Message>, junk: seq<Message>)
    requires GoodThread(e) && InMemory(t, e, pending) && LogTracks(e, DirOf(dirs, e.id), pending)
    ensures Touch(t, dirs, junk) == e
  {
    CountIsLength(e);
    hide GoodHistory, EncodeRecords;
    if t != e {
      assert e.messages[..|e.messages|] == e.messages;
      var b := EncodeRecords(e.messages);
      assert e.messages == [] ==> t == e;
      RecordsNotEmpty(e.messages);
      assert DirOf(dirs, e.id).log == Some(b + []) by { assert b + [] == b; }
      LoadsStoredHistory(dirs, t, e.messages, [], junk);
    }
  }

  lemma SimLookup(s: State, f: EagerForum, id: u64, junk: seq<Message>)
    requires Simulates(s, f)
    ensures var (s1, i) := Lookup(s, id, junk);
      && i == IndexOf(f.threads, id)
      && Simulates(s1, f)
      && (i >= 0 ==> s1.threads[i] == f.threads[i])
  {
    SimIndex(s, f, id);
    var (s1, i) := Lookup(s, id, junk);
    if i >= 0 {
      var e := f.threads[i];
      assert TracksAt(s, f, i);
      TouchCompletes(s.threads[i], e, s.dirs, PendingOf(s.msgQ, e.id), junk);
      forall j | 0 <= j < |f.threads| ensures TracksAt(s1, f, j) {
        assert TracksAt(s, f, j);
      }
    }
  }

  /** A step that leaves one thread, its directory and its pending messages alone. */
  lemma StillTracks(s: State, s': State, f: EagerForum, f': EagerForum, j: nat)
    requires j < |s.threads| == |f.threads| && j < |s'.threads| == |f'.threads|
    requires TracksAt(s, f, j) && s'.threads[j] == s.threads[j] && f'.threads[j] == f.threads[j]
    requires var id := f.threads[j].id;
      && DirOf(s'.dirs, id) == DirOf(s.dirs, id) && PendingOf(s'.msgQ, id) == PendingOf(s.msgQ, id)
      && (id in s.infoQ ==> id in s'.infoQ) && (id in s.authorQ ==> id in s'.authorQ)
    ensures TracksAt(s', f', j)
  {}

  /** A freshly created thread has nothing on disk and is in both save queues. */
  lemma CreatedTracks(s: State, f: EagerForum, j: nat)
    requires j < |s.threads| == |f.threads| && s.threads[j] == f.threads[j]
    requires GoodThread(f.threads[j]) && f.threads[j].messages == []
    requires var id := f.threads[j].id;
      id !in s.dirs && PendingOf(s.msgQ, id) == [] && id in s.infoQ && id in s.authorQ
    ensures TracksAt(s, f, j)
  {}

  lemma HasIdGrows(ts: seq<Thread>, us: seq<Thread>, id: u64)
    requires HasId(ts, id) && |ts| <= |us| && forall k :: 0 <= k < |ts| ==> us[k].id == ts[k].id
    ensures HasId(us, id)
  {
    var i :| 0 <= i < |ts| && ts[i].id == id;
    assert us[i].id == id;
  }

  lemma MetaRoundTrip(n: u64)
    ensures MetaValue(Some(U64(n))) == n
  {
    U64RoundTrip(n);
    assert U64(n)[..8] == U64(n);
  }

  function WithThread(s: State, t: Thread, next: u64): State {
    s.(threads := s.threads + [t], nextId := next, meta := Some(U64(next)),
       infoQ := s.infoQ + [t.id], authorQ := s.authorQ + [t.id])
  }

  /** The next id is not in use anywhere. */
  lemma NextIdUnused(s: State, f: EagerForum)
    requires Simulates(s, f)
    ensures f.nextId !in s.dirs && PendingOf(s.msgQ, f.nextId) == []
  {
    forall k | 0 <= k < |s.msgQ| ensures s.msgQ[k].owner != f.nextId {
      assert HasId(f.threads, s.msgQ[k].owner);
    }
    PendingNone(s.msgQ, f.nextId);
    assert f.nextId in s.dirs ==> HasId(f.threads, f.nextId);
  }

  lemma IdsMatchNewThread(s: State, f: EagerForum, t: Thread)
    requires IdsMatch(s, f) && f.nextId + 1 < TWO_64 && t.id == f.nextId
    ensures IdsMatch(WithThread(s, t, f.nextId + 1), EagerForum(f.threads + [t], f.nextId + 1))
  {
    MetaRoundTrip(f.nextId + 1);
    forall k | 0 <= k < |s.msgQ| ensures HasId(f.threads + [t], s.msgQ[k].owner) {
      HasIdGrows(f.threads, f.threads + [t], s.msgQ[k].owner);
    }
    forall d | d in s.dirs ensures HasId(f.threads + [t], d) {
      HasIdGrows(f.threads, f.threads + [t], d);
    }
  }

  lemma NewThreadTracks(s: State, f: EagerForum, t: Thread, j: nat)
    requires Simulates(s, f) && f.nextId + 1 < TWO_64 && j <= |f.threads|
    requires t.id == f.nextId && GoodThread(t) && t.messages == []
    ensures TracksAt(WithThread(s, t, f.nextId + 1), EagerForum(f.threads + [t], f.nextId + 1), j)
  {
    var s', f' := WithThread(s, t, f.nextId + 1), EagerForum(f.threads + [t], f.nextId + 1);
    if j < |f.threads| {
      StillTracks(s, s', f, f', j);
    } else {
      NextIdUnused(s, f);
      CreatedTracks(s', f', j);
    }
  }

  lemma SimNewThread(s: State, f: EagerForum, t: Thread)
    requires Simulates(s, f) && f.nextId + 1 < TWO_64
    requires t.id == f.nextId && GoodThread(t) && t.messages == []
    ensures Simulates(WithThread(s, t, f.nextId + 1), EagerForum(f.threads + [t], f.nextId + 1))
  {
    var s', f' := WithThread(s, t, f.nextId + 1), EagerForum(f.threads + [t], f.nextId + 1);
    IdsMatchNewThread(s, f, t);
    forall j | 0 <= j < |f'.threads| ensures TracksAt(s', f', j) {
      NewThreadTracks(s, f, t, j);
    }
  }

  lemma SimCreate(s: State, f: EagerForum, topic: bytes, o: Oracle, k: nat)
    requires Simulates(s, f) && Room(f, k + 1)
    requires GoodToken(o.token) && |CStr(topic)| <= MAX_PACKET_SIZE
    ensures HandleCreate(s, topic, o).1 == EagerHandle(f, Create(topic), o).1
    ensures Simulates(HandleCreate(s, topic, o).0, EagerHandle(f, Create(topic), o).0)
    ensures Room(EagerHandle(f, Create(topic), o).0, k)
  {
    var t := CreatedThread(f.nextId, topic, o);
    assert (f.nextId + 1) % TWO_64 == f.nextId + 1;
    assert HandleCreate(s, topic, o).0 == WithThread(s, t, f.nextId + 1);
    SimNewThread(s, f, t);
  }

  function Posted(s: State, i: nat, text: bytes, flag: u32): State
    requires i < |s.threads|
  {
    var t := s.threads[i];
    s.(threads := s.threads[i := WithMessage(t, text, flag)],
       msgQ := s.msgQ + [Pending(t.id, Message(t.next, text, flag))],
       infoQ := s.infoQ + [t.id])
  }

  function EagerPosted(f: EagerForum, i: nat, text: bytes, flag: u32): EagerForum
    requires i < |f.threads|
  {
    f.(threads := f.threads[i := WithMessage(f.threads[i], text, flag)])
  }

  lemma PostedLog(e: Thread, d: Dir, pending: seq<Message>, text: bytes, flag: u32)
    requires LogTracks(e, d, pending) && TextFits(text)
    ensures LogTracks(WithMessage(e, text, flag), d, pending + [Message(e.next, text, flag)])
  {
    var m, u := Message(e.next, text, flag), WithMessage(e, text, flag);
    assert u.messages == e.messages + [m];
    assert Logged(u.messages, pending + [m]) == Logged(e.messages, pending);
    assert u.messages == Logged(e.messages, pending) + (pending + [m]);
  }

  lemma PostedFiles(e: Thread, d: Dir, text: bytes, flag: u32)
    requires FilesAreTrue(e, d) && TextFits(text) && e.next + 1 < TWO_64
    ensures FilesAreTrue(WithMessage(e, text, flag), d)
    ensures AuthorSaved(WithMessage(e, text, flag), d) <==> AuthorSaved(e, d)
  {
    hide DecodeInfo;
  }

  lemma PostedTracksHere(s: State, f: EagerForum, i: nat, text: bytes, flag: u32)
    requires i < |s.threads| == |f.threads| && TracksAt(s, f, i) && s.threads[i] == f.threads[i]
    requires NulFree(text) && TextFits(text) && f.threads[i].next + 1 < TWO_64
    ensures TracksAt(Posted(s, i, text, flag), EagerPosted(f, i, text, flag), i)
  {
    var t := f.threads[i];
    PendingAppend(s.msgQ, Pending(t.id, Message(t.next, text, flag)), t.id);
    PostKeepsHistory(t, text, flag);
    PostedLog(t, DirOf(s.dirs, t.id), PendingOf(s.msgQ, t.id), text, flag);
    PostedFiles(t, DirOf(s.dirs, t.id), text, flag);
    hide LogTracks, GoodHistory, FilesAreTrue, InfoSaved, AuthorSaved, DirOf, PendingOf;
  }

  lemma PostedTracks(s: State, f: EagerForum, i: nat, text: bytes, flag: u32, j: nat)
    requires Simulates(s, f) && i < |f.threads| && j < |f.threads| && s.threads[i] == f.threads[i]
    requires NulFree(text) && TextFits(text) && f.threads[i].next + 1 < TWO_64
    ensures TracksAt(Posted(s, i, text, flag), EagerPosted(f, i, text, flag), j)
  {
    var t := f.threads[i];
    assert TracksAt(s, f, i) && TracksAt(s, f, j);
    assert j != i ==> f.threads[j].id != t.id;
    hide Simulates, TracksAt, DirOf, PendingOf, WithMessage;
    if j == i {
      PostedTracksHere(s, f, i, text, flag);
    } else {
      PendingAppend(s.msgQ, Pending(t.id, Message(t.next, text, flag)), f.threads[j].id);
      StillTracks(s, Posted(s, i, text, flag), f, EagerPosted(f, i, text, flag), j);
    }
  }

  /** Posting to a thread that is whole in memory. */
  lemma SimPostText(s: State, f: EagerForum, i: nat, text: bytes, flag: u32)
    requires Simulates(s, f) && i < |f.threads| && s.threads[i] == f.threads[i]
    requires NulFree(text) && TextFits(text) && f.threads[i].next + 1 < TWO_64
    ensures Simulates(Posted(s, i, text, flag), EagerPosted(f, i, text, flag))
  {
    var s', f' := Posted(s, i, text, flag), EagerPosted(f, i, text, flag);
    forall j | 0 <= j < |f'.threads| ensures TracksAt(s', f', j) {
      PostedTracks(s, f, i, text, flag, j);
    }
    forall id | HasId(f.threads, id) ensures HasId(f'.threads, id) {
      HasIdGrows(f.threads, f'.threads, id);
    }
    assert f'.threads[i].id == f.threads[i].id;
  }

  lemma SimPost(s: State, f: EagerForum, id: u64, body: Body, o: Oracle, k: nat)
    requires Simulates(s, f) && Room(f, k + 1)
    requires body.Text? ==> NulFree(body.text) && TextFits(body.text)
    ensures HandlePost(s, id, body, o).1 == EagerHandle(f, Post(id, body), o).1
    ensures Simulates(HandlePost(s, id, body, o).0, EagerHandle(f, Post(id, body), o).0)
    ensures Room(EagerHandle(f, Post(id, body), o).0, k)
  {
    SimLookup(s, f, id, o.junk);
    hide Simulates, TokenFlag, Touch;
    var (s1, i) := Lookup(s, id, o.junk);
    if i >= 0 && body.Text? {
      SimPostText(s1, f, i, body.text, PostFlag(f.threads[i], body.token));
    }
  }

  lemma {:induction false} SameMatches(ts: seq<Thread>, us: seq<Thread>, part: bytes)
    requires |ts| == |us| && forall k :: 0 <= k < |ts| ==> ts[k].id == us[k].id && ts[k].topic == us[k].topic
    ensures Matches(ts, part) == Matches(us, part)
  {
    if ts != [] {
      SameMatches(ts[1..], us[1..], part);
    }
  }

  // ------------------------------------------------------------- writer threads

  lemma SavedNow(t: Thread, e: Thread, d: Dir, pending: seq<Message>)
    requires GoodThread(e) && InMemory(t, e, pending)
    ensures t.author.Some?
    ensures InfoSaved(e, d.(info := Some(EncodeInfo(t, t.author.value.id))))
  {
    InfoRoundTrip(t, t.author.value.id);
  }

  lemma SimInfoWriter(s: State, f: EagerForum)
    requires Simulates(s, f)
    ensures Simulates(WriteInfo(s), f)
  {
    if s.infoQ != [] {
      var id := s.infoQ[0];
      SimIndex(s, f, id);
      var i := IndexOf(s.threads, id);
      if i >= 0 {
        assert TracksAt(s, f, i);
        var t, d := s.threads[i], DirOf(s.dirs, id);
        SavedNow(t, f.threads[i], d, PendingOf(s.msgQ, id));
        SimSaved(s, WriteInfo(s), f, i, d.(info := Some(EncodeInfo(t, t.author.value.id))));
      } else {
        SimDequeued(s, WriteInfo(s), f, id);
      }
    }
  }

  /** A save queue loses an id that belongs to no thread. */
  lemma SimDequeued(s: State, s': State, f: EagerForum, id: u64)
    requires Simulates(s, f) && IndexOf(f.threads, id) < 0
    requires s' == s.(infoQ := s'.infoQ, authorQ := s'.authorQ)
    requires forall x :: x in s.infoQ && x != id ==> x in s'.infoQ
    requires forall x :: x in s.authorQ && x != id ==> x in s'.authorQ
    ensures Simulates(s', f)
  {
    forall j | 0 <= j < |f.threads| ensures TracksAt(s', f, j) {
      StillTracks(s, s', f, f, j);
    }
  }

  /** One file of thread i is rewritten and its id may leave the queue of that file. */
  lemma SimSaved(s: State, s': State, f: EagerForum, i: nat, d: Dir)
    requires Simulates(s, f) && i < |f.threads|
    requires var e := f.threads[i];
      && s' == s.(infoQ := s'.infoQ, authorQ := s'.authorQ, dirs := s.dirs[e.id := d])
      && d.log == DirOf(s.dirs, e.id).log && FilesAreTrue(e, d)
      && (e.id in s'.infoQ || InfoSaved(e, d)) && (e.id in s'.authorQ || AuthorSaved(e, d))
      && (forall x :: x in s.infoQ && x != e.id ==> x in s'.infoQ)
      && (forall x :: x in s.authorQ && x != e.id ==> x in s'.authorQ)
    ensures Simulates(s', f)
  {
    var e := f.threads[i];
    forall j | 0 <= j < |f.threads| ensures TracksAt(s', f, j) {
      assert TracksAt(s, f, j);
      if j != i {
        assert f.threads[j].id != e.id by { IndexIs(f.threads, i); IndexIs(f.threads, j); }
        StillTracks(s, s', f, f, j);
      }
    }
    forall x | x in s'.dirs ensures HasId(f.threads, x) {
      assert x == e.id || x in s.dirs;
    }
  }

  lemma AuthorSavedNow(t: Thread, e: Thread, d: Dir, pending: seq<Message>)
    requires GoodThread(e) && InMemory(t, e, pending)
    ensures t.author.Some? && AuthorSaved(e, d.(author := Some(EncodeAuthor(t.author.value))))
  {}

  lemma SimAuthorWriter(s: State, f: EagerForum)
    requires Simulates(s, f)
    ensures Simulates(WriteAuthor(s), f)
  {
    if s.authorQ != [] {
      var id := s.authorQ[0];
      SimIndex(s, f, id);
      var i := IndexOf(s.threads, id);
      if i >= 0 {
        assert TracksAt(s, f, i);
        var t, d := s.threads[i], DirOf(s.dirs, id);
        AuthorSavedNow(t, f.threads[i], d, PendingOf(s.msgQ, id));
        SimSaved(s, WriteAuthor(s), f, i, d.(author := Some(EncodeAuthor(t.author.value))));
      } else {
        SimDequeued(s, WriteAuthor(s), f, id);
      }
    }
  }

  /** Moving the first pending message to the log keeps "log, then pending, is the history". */
  lemma LogStepTracks(e: Thread, d: Dir, m: Message, rest: seq<Message>)
    requires GoodThread(e) && LogTracks(e, d, [m] + rest)
    ensures LogTracks(e, d.(log := Some(LogBytes(d) + EncodeRecord(m))), rest)
  {
    var before, after := Logged(e.messages, [m] + rest), Logged(e.messages, rest);
    var n := |before|;
    assert e.messages[n] == (before + ([m] + rest))[n] == m;
    assert after == before + [m];
    assert e.messages == before + ([m] + rest) == (before + [m]) + rest;
    EncodeOneMore(before, m);
  }

  lemma PendingHead(q: seq<Pending>, id: u64)
    requires q != []
    ensures q[0].owner == id ==> PendingOf(q, id) == [q[0].msg] + PendingOf(q[1..], id)
    ensures q[0].owner != id ==> PendingOf(q, id) == PendingOf(q[1..], id)
  {}

  lemma MessageWrittenTracks(s: State, f: EagerForum, j: nat)
    requires s.msgQ != [] && j < |s.threads| == |f.threads| && TracksAt(s, f, j)
    ensures TracksAt(WriteMessage(s), f, j)
  {
    hide LogTracks, EncodeRecord, GoodThread, PendingOf, DecodeInfo, EncodeAuthor, CutTopic;
    var e, p, rest := f.threads[j], s.msgQ[0], s.msgQ[1..];
    PendingHead(s.msgQ, e.id);
    if e.id == p.owner {
      LogStepTracks(e, DirOf(s.dirs, e.id), p.msg, PendingOf(rest, e.id));
    } else {
      StillTracks(s, WriteMessage(s), f, f, j);
    }
  }

  lemma SimMessageWriter(s: State, f: EagerForum)
    requires Simulates(s, f)
    ensures Simulates(WriteMessage(s), f)
  {
    if s.msgQ != [] {
      var s', owner := WriteMessage(s), s.msgQ[0].owner;
      forall j | 0 <= j < |f.threads| ensures TracksAt(s', f, j) {
        MessageWrittenTracks(s, f, j);
      }
      assert HasId(f.threads, owner);
      hide TracksAt, HasId;
      assert forall d :: d in s'.dirs ==> d in s.dirs || d == owner;
      forall k | 0 <= k < |s'.msgQ| ensures HasId(f.threads, s'.msgQ[k].owner) {
        assert s'.msgQ[k] == s.msgQ[k + 1];
      }
    }
  }
}
