/** Short runs from the first start, with packets the server accepts, on which a promise fails. */
module Witnesses {
  import opened Bytes
  import opened Forum
  import opened ForumIo
  import opened Wire
  import opened Store
  import opened Eager
  import opened Runs
  import opened MessageCleanup

  /** The forum right after the first thread was created: both files are still to be written. */
  function Created(t: Thread): State {
    State([t], 1, [0], [0], [], map[], Some(U64(1)))
  }

  ghost predicate Fine(topic: bytes, o: Oracle) {
    NulFree(topic) && TopicSizeFits(|topic|) && GoodToken(o.token)
  }

  /** Only the info writer has had its turn. */
  function HalfSaved(topic: bytes, o: Oracle): seq<Event> {
    [Packet(CreateRequest(topic), o), InfoWriter]
  }

  lemma FirstCreate(data: bytes, topic: bytes, o: Oracle)
    requires ReadRequest(data) == Create(topic)
    ensures Step(INITIAL, Packet(data, o)).0 == Created(CreatedThread(0, topic, o))
    ensures Step(INITIAL, Packet(data, o)).1 != Some(Undefined)
  {
    hide ReadRequest, CreatedThread;
  }

  lemma RunCons(s: State, f: EagerForum, e: Event, es: seq<Event>)
    requires CleanEvent(s, e)
    ensures CleanRun(s, [e] + es) <==> CleanRun(Step(s, e).0, es)
    ensures Final(s, [e] + es) == Final(Step(s, e).0, es)
    ensures EagerFinal(f, [e] + es) == EagerFinal(EagerStep(f, e).0, es)
  {
    assert ([e] + es)[1..] == es;
    hide Step, EagerStep, CleanEvent;
  }

  lemma RunNil(s: State, f: EagerForum)
    ensures CleanRun(s, []) && Final(s, []) == s && EagerFinal(f, []) == f
  {}

  /** The first thread, by whatever packet asks for it, and then any other run. */
  lemma RunAfterCreate(data: bytes, topic: bytes, o: Oracle, es: seq<Event>)
    requires ReadRequest(data) == Create(topic) && PacketOk(data, o)
    requires CleanRun(Created(CreatedThread(0, topic, o)), es)
    ensures CleanRun(INITIAL, [Packet(data, o)] + es)
    ensures Final(INITIAL, [Packet(data, o)] + es) == Final(Created(CreatedThread(0, topic, o)), es)
    ensures EagerFinal(EMPTY, [Packet(data, o)] + es)
         == EagerFinal(EagerForum([CreatedThread(0, topic, o)], 1), es)
  {
    var e := Packet(data, o);
    FirstCreate(data, topic, o);
    assert EagerStep(EMPTY, e).0 == EagerForum([CreatedThread(0, topic, o)], 1);
    assert CleanEvent(INITIAL, e);
    hide *;
    RunCons(INITIAL, EMPTY, e, es);
  }

  lemma HalfSavedRun(topic: bytes, o: Oracle)
    requires Fine(topic, o)
    ensures CleanRun(INITIAL, HalfSaved(topic, o))
    ensures Final(INITIAL, HalfSaved(topic, o)) == WriteInfo(Created(CreatedThread(0, topic, o)))
    ensures EagerFinal(EMPTY, HalfSaved(topic, o)) == EagerForum([CreatedThread(0, topic, o)], 1)
  {
    var t := CreatedThread(0, topic, o);
    ReadsCreate(topic);
    RunNil(WriteInfo(Created(t)), EagerForum([t], 1));
    RunCons(Created(t), EagerForum([t], 1), InfoWriter, []);
    assert [InfoWriter] + [] == [InfoWriter];
    RunAfterCreate(CreateRequest(topic), topic, o, [InfoWriter]);
    assert HalfSaved(topic, o) == [Packet(CreateRequest(topic), o)] + [InfoWriter];
  }

  /**
    The author file can be missing: after one accepted CTHR and one turn of the info writer, a crash leaves a thread
    on which every token passes as the author's.
   */
  lemma EveryTokenCanPass(topic: bytes, o: Oracle, token: bytes, junk: seq<Message>)
    requires Fine(topic, o)
    ensures CleanRun(INITIAL, HalfSaved(topic, o))
    ensures var s := Final(INITIAL, HalfSaved(topic, o));
      && DirOf(s.dirs, 0).info.Some? && DirOf(s.dirs, 0).author.None? && Listing(s.dirs, [0])
      && exists t :: t in Reboot(s, false, [0]).threads && t.id == 0
           && PostFlag(Touch(t, s.dirs, junk), Some(token)) == 0xffff_fff9
  {
    var es := HalfSaved(topic, o);
    var s, f := Final(INITIAL, es), EagerFinal(EMPTY, es);
    HalfSavedRun(topic, o);
    RunsFromTheFirstStart(es);
    assert s.dirs.Keys == {0};
    LostAuthorTrustsEveryToken(s, f, 0, false, [0], token, junk);
  }

  /** A thread can be lost whole: accepted, answered, and gone with a stop or crash before its first writer turn. */
  lemma AcceptedThreadCanBeLost(topic: bytes, o: Oracle, graceful: bool)
    requires Fine(topic, o)
    ensures var es := [Packet(CreateRequest(topic), o)];
      var s := Final(INITIAL, es);
      && CleanRun(INITIAL, es) && Listing(s.dirs, [])
      && |s.threads| == 1 && Reboot(s, graceful, []).threads == []
  {
    var t := CreatedThread(0, topic, o);
    ReadsCreate(topic);
    RunNil(Created(t), EMPTY);
    assert [Packet(CreateRequest(topic), o)] + [] == [Packet(CreateRequest(topic), o)];
    RunAfterCreate(CreateRequest(topic), topic, o, []);
  }

  /** A CTHR packet whose declared size is within the bounds, whatever its topic. */
  function Declaring(size: nat, topic: bytes): bytes
    requires size < TWO_64
  {
    CTHR + (TPCSZ + (U64(size) + (TPC + topic)))
  }

  lemma ReadsWholeTopic(size: nat, topic: bytes)
    requires NulFree(topic) && TopicSizeFits(size)
    ensures ReadRequest(Declaring(size, topic)) == Create(topic)
  {
    EatTag(CTHR, TPCSZ + (U64(size) + (TPC + topic)));
    EatTag(TPCSZ, U64(size) + (TPC + topic));
    EatU64Prefix(size, TPC + topic);
    EatTag(TPC, topic);
    CStrOfNulFree(topic);
    assert Eat(GTHR, Declaring(size, topic)).None? by { assert Declaring(size, topic)[0] == 67; }
  }

  /** Create, both writers, restart. */
  function SavedAndRestarted(size: nat, topic: bytes, o: Oracle): seq<Event>
    requires size < TWO_64
  {
    [Packet(Declaring(size, topic), o)] + ([InfoWriter] + ([AuthorWriter] + ([Restart(true, [0])] + [])))
  }

  lemma SavedState(t: Thread)
    requires t.author.Some? && t.id == 0
    ensures Drained(WriteAuthor(WriteInfo(Created(t)))) && Listing(WriteAuthor(WriteInfo(Created(t))).dirs, [0])
  {
    assert WriteAuthor(WriteInfo(Created(t))).dirs.Keys == {0};
  }

  lemma SavingRun(t: Thread)
    requires t.author.Some? && t.id == 0
    ensures var es := [InfoWriter] + ([AuthorWriter] + ([Restart(true, [0])] + []));
      CleanRun(Created(t), es) && EagerFinal(EagerForum([t], 1), es).threads == [Reloaded(t)]
  {
    var s, f := Created(t), EagerForum([t], 1);
    var s1, s2 := WriteInfo(s), WriteAuthor(WriteInfo(s));
    var s3, f3 := Reboot(s2, true, [0]), f.(threads := Reordered([t], [0]));
    hide *;
    WriterSteps(s, f);
    WriterSteps(s1, f);
    SavedState(t);
    RestartStep(s2, t);
    ReorderedOne(t);
    RunNil(s3, f3);
    RunCons(s2, f, Restart(true, [0]), []);
    RunCons(s1, f, AuthorWriter, [Restart(true, [0])] + []);
    RunCons(s, f, InfoWriter, [AuthorWriter] + ([Restart(true, [0])] + []));
  }

  lemma ReorderedOne(t: Thread)
    requires t.id == 0
    ensures Reordered([t], [0]) == [Reloaded(t)]
  {
    hide Reloaded;
    assert [0][1..] == [] && IndexOf([t], 0) == 0;
    assert Reordered([t], [0]) == [Reloaded(t)] + Reordered([t], []);
  }

  lemma RestartStep(s: State, t: Thread)
    requires Drained(s) && Listing(s.dirs, [0]) && t.id == 0
    ensures CleanEvent(s, Restart(true, [0])) && Step(s, Restart(true, [0])).0 == Reboot(s, true, [0])
    ensures var f := EagerForum([t], 1);
      EagerStep(f, Restart(true, [0])).0 == f.(threads := Reordered([t], [0]))
  {
    hide Reboot, Reordered, Drained, Listing;
  }

  lemma WriterSteps(s: State, f: EagerForum)
    ensures CleanEvent(s, InfoWriter) && CleanEvent(s, AuthorWriter)
    ensures Step(s, InfoWriter).0 == WriteInfo(s) && EagerStep(f, InfoWriter).0 == f
    ensures Step(s, AuthorWriter).0 == WriteAuthor(s) && EagerStep(f, AuthorWriter).0 == f
  {}

  lemma SavedRun(size: nat, topic: bytes, o: Oracle)
    requires NulFree(topic) && TopicSizeFits(size) && GoodToken(o.token)
    requires |Declaring(size, topic)| <= MAX_PACKET_SIZE
    ensures CleanRun(INITIAL, SavedAndRestarted(size, topic, o))
    ensures EagerFinal(EMPTY, SavedAndRestarted(size, topic, o)).threads == [Reloaded(CreatedThread(0, topic, o))]
  {
    ReadsWholeTopic(size, topic);
    SavingRun(CreatedThread(0, topic, o));
    hide *;
    RunAfterCreate(Declaring(size, topic), topic, o, [InfoWriter] + ([AuthorWriter] + ([Restart(true, [0])] + [])));
  }

  /** A topic can be cut: declared within the bounds and accepted in full, it loses its end with a drained restart. */
  lemma AcceptedTopicCanBeCut(size: nat, topic: bytes, o: Oracle)
    requires NulFree(topic) && TopicSizeFits(size) && GoodToken(o.token)
    requires |topic| > 64 && |Declaring(size, topic)| <= 1048576
    ensures ReadRequest(Declaring(size, topic)) == Create(topic)
    ensures CleanRun(INITIAL, SavedAndRestarted(size, topic, o))
    ensures var ts := EagerFinal(EMPTY, SavedAndRestarted(size, topic, o)).threads;
      |ts| == 1 && ts[0].topic == topic[..64] != topic
  {
    ReadsWholeTopic(size, topic);
    SavedRun(size, topic, o);
    CStrOfNulFree(topic);
    CutTopicExact(topic);
  }

  /** A thread that is saved, and a message in it that no writer has seen yet. */
  function Posted(topic: bytes, text: bytes, o: Oracle): seq<Event> {
    [Packet(CreateRequest(topic), o)]
      + ([InfoWriter] + ([AuthorWriter] + ([Packet(PostRequest(0, text, None), o)] + [])))
  }

  lemma PostedRun(topic: bytes, text: bytes, o: Oracle)
    requires Fine(topic, o) && NulFree(text) && TextFits(text)
    ensures CleanRun(INITIAL, Posted(topic, text, o))
    ensures var s, t := Final(INITIAL, Posted(topic, text, o)), CreatedThread(0, topic, o);
      && s.threads == [WithMessage(t, text, FALSE)] && s.infoQ == [0] && s.authorQ == []
      && s.msgQ == [Pending(0, Message(t.next, text, FALSE))]
  {
    var t := CreatedThread(0, topic, o);
    var s, f := Created(t), EagerForum([t], 1);
    var s1, s2 := WriteInfo(s), WriteAuthor(WriteInfo(s));
    var e := Packet(PostRequest(0, text, None), o);
    ReadsCreate(topic);
    ReadsPost(0, text, None);
    PostToFirst(s2, t, e.data, text, o);
    assert CleanEvent(s2, e);
    hide *;
    WriterSteps(s, f);
    WriterSteps(s1, f);
    RunNil(Step(s2, e).0, EagerStep(f, e).0);
    RunCons(s2, f, e, []);
    RunCons(s1, f, AuthorWriter, [e] + []);
    RunCons(s, f, InfoWriter, [AuthorWriter] + ([e] + []));
    RunAfterCreate(CreateRequest(topic), topic, o, [InfoWriter] + ([AuthorWriter] + ([e] + [])));
  }

  lemma PostToFirst(s: State, t: Thread, data: bytes, text: bytes, o: Oracle)
    requires s.threads == [t] && s.msgQ == [] && s.infoQ == []
    requires t.id == 0 && t.first == t.next && t.messages == [] && t.author.Some?
    requires ReadRequest(data) == Post(0, Text(text, None))
    ensures var (s', r) := Step(s, Packet(data, o));
      && r != Some(Undefined) && s'.threads == [WithMessage(t, text, FALSE)]
      && s'.infoQ == [0] && s'.authorQ == s.authorQ && s'.msgQ == [Pending(0, Message(t.next, text, FALSE))]
  {
    hide ReadRequest;
    assert Touch(t, s.dirs, o.junk) == t;
  }

  /** A message can be destructed twice: posted, and still queued when the server stops. */
  lemma MessageCanDieTwice(topic: bytes, text: bytes, o: Oracle)
    requires Fine(topic, o) && NulFree(text) && TextFits(text)
    ensures CleanRun(INITIAL, Posted(topic, text, o))
    ensures var s, k := Final(INITIAL, Posted(topic, text, o)), (0, o.first % RANDOM_IDS);
      Destructions(s) == [k, k] && multiset(Destructions(s))[k] == 2
  {
    var s, t := Final(INITIAL, Posted(topic, text, o)), CreatedThread(0, topic, o);
    PostedRun(topic, text, o);
    var u := WithMessage(t, text, FALSE);
    assert u.messages == [Message(t.next, text, FALSE)];
    assert KeysOfAll([u]) == KeysOf(u) by {
      assert [u][1..] == [];
    }
  }

  lemma AnyRunCons(s: State, e: Event, es: seq<Event>)
    requires AnyEvent(s, e)
    ensures AnyRun(s, [e] + es) <==> AnyRun(Step(s, e).0, es)
    ensures CreatedIds(s, [e] + es)
         == (if CreatedId(s, e).Some? then [CreatedId(s, e).value] else []) + CreatedIds(Step(s, e).0, es)
  {
    assert ([e] + es)[1..] == es;
    hide Step, CreatedId, AnyEvent;
  }

  /** Ids go on after a crash that lost the first thread: the counter was on disk before the id was used. */
  lemma IdsGoOnAfterACrash(topic: bytes, o: Oracle)
    requires Fine(topic, o)
    ensures var create := Packet(CreateRequest(topic), o);
      var es := [create] + ([Restart(false, [])] + ([create] + []));
      AnyRun(INITIAL, es) && CreatedIds(INITIAL, es) == [0, 1]
  {
    var create, t := Packet(CreateRequest(topic), o), CreatedThread(0, topic, o);
    var s1, s2 := Created(t), Reboot(Created(t), false, []);
    ReadsCreate(topic);
    FirstCreate(create.data, topic, o);
    MetaRoundTrip(1);
    assert s2.nextId == 1 && s2.threads == [];
    assert CreatedId(INITIAL, create) == Some(0) && CreatedId(s2, create) == Some(1);
    assert CreatedId(s1, Restart(false, [])) == None && AnyEvent(s1, Restart(false, []));
    assert AnyEvent(INITIAL, create) && AnyEvent(s2, create);
    var s3 := Step(s2, create).0;
    assert AnyRun(s3, []) && CreatedIds(s3, []) == [];
    hide Step, CreatedId, AnyEvent, AnyRun, CreatedIds;
    AnyRunCons(s2, create, []);
    CrashStep(s1);
    AnyRunCons(s1, Restart(false, []), [create] + []);
    AnyRunCons(INITIAL, create, [Restart(false, [])] + ([create] + []));
  }

  lemma CrashStep(s: State)
    ensures Step(s, Restart(false, [])).0 == Reboot(s, false, [])
  {}
}
