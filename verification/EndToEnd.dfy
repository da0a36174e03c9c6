/** From a client's packet through the server to what the client reads back, on any reachable server. */
module EndToEnd {
  import opened Bytes
  import opened Forum
  import opened ForumIo
  import opened Wire
  import opened Store
  import opened Eager
  import opened Runs
  import Api
  import ApiReplies

  function Answer(s: State, packet: bytes, o: Oracle): (State, Reply) {
    Handle(s, ReadRequest(packet), o)
  }

  // ------------------------------------------------------------------- author flags

  ghost predicate FlagsAreBoolean(t: Thread) {
    forall k :: 0 <= k < |t.messages| ==> t.messages[k].byAuthor in {FALSE, TRUE}
  }

  ghost predicate BooleanFlags(f: EagerForum) {
    forall i :: 0 <= i < |f.threads| ==> FlagsAreBoolean(f.threads[i]) && f.threads[i].author.Some?
  }

  lemma PostKeepsFlags(t: Thread, text: bytes, token: Option<bytes>)
    requires FlagsAreBoolean(t) && t.author.Some?
    ensures FlagsAreBoolean(WithMessage(t, text, PostFlag(t, token)))
  {}

  lemma {:induction false} ReorderedKeepsFlags(ts: seq<Thread>, order: seq<u64>)
    requires forall i :: 0 <= i < |ts| ==> FlagsAreBoolean(ts[i]) && ts[i].author.Some?
    ensures forall i :: 0 <= i < |Reordered(ts, order)| ==>
      FlagsAreBoolean(Reordered(ts, order)[i]) && Reordered(ts, order)[i].author.Some?
    decreases |order|
  {
    if order != [] {
      ReorderedKeepsFlags(ts, order[1..]);
    }
  }

  lemma StepKeepsFlags(f: EagerForum, e: Event)
    requires BooleanFlags(f)
    ensures BooleanFlags(EagerStep(f, e).0)
  {
    match e
    case Packet(data, o) =>
      var r := ReadRequest(data);
      if r.Post? && r.body.Text? && IndexOf(f.threads, r.id) >= 0 {
        PostKeepsFlags(f.threads[IndexOf(f.threads, r.id)], r.body.text, r.body.token);
      }
    case Restart(_, order) => ReorderedKeepsFlags(f.threads, order);
    case _ =>
  }

  /** In every run each author flag is plain true or false: every thread has its author from the start. */
  lemma {:induction false} RunKeepsFlags(f: EagerForum, es: seq<Event>)
    requires BooleanFlags(f)
    ensures BooleanFlags(EagerFinal(f, es))
    decreases |es|
  {
    if es != [] {
      StepKeepsFlags(f, es[0]);
      RunKeepsFlags(EagerStep(f, es[0]).0, es[1..]);
    }
  }

  lemma FlagsFromTheFirstStart(es: seq<Event>)
    ensures BooleanFlags(EagerFinal(EMPTY, es))
  {
    RunKeepsFlags(EMPTY, es);
  }

  // --------------------------------------------------------------------------- GTHR

  /** A client's copy of a message: the text, an id moved by a constant, the author flag unless a byte was left over. */
  ghost predicate MirrorsMessage(c: Message, m: Message, shift: int, pad: Padding) {
    && c.text == m.text
    && c.id == (m.id + shift) % TWO_64
    && (c.byAuthor != FALSE <==> m.byAuthor != FALSE || pad != [0, 0, 0])
  }

  ghost predicate Mirrors(c: Thread, t: Thread, pads: seq<Padding>) {
    && c.id == t.id && c.topic == t.topic
    && |c.messages| == |t.messages| == MessageCount(c)
    && forall k :: 0 <= k < |t.messages| ==>
        MirrorsMessage(c.messages[k], t.messages[k], c.first - t.first, PadAt(pads, k))
  }

  lemma CopyMirrors(t: Thread, pads: seq<Padding>, base: u64)
    requires GoodHistory(t) && FlagsAreBoolean(t)
    ensures Mirrors(ClientCopy(t, pads, base), t, pads)
  {
    var c := ClientCopy(t, pads, base);
    ClientCopyShape(t, pads, base);
    forall k | 0 <= k < |t.messages|
      ensures MirrorsMessage(c.messages[k], t.messages[k], c.first - t.first, PadAt(pads, k))
    {
      ClientCopyAt(t, pads, base, k);
      FlagTruth(t.messages[k].byAuthor, PadAt(pads, k));
    }
  }

  lemma GetFound(s: State, f: EagerForum, i: nat, o: Oracle, random: u64)
    requires Simulates(s, f) && BooleanFlags(f) && i < |f.threads|
    ensures var t := f.threads[i];
      var (s', r) := Answer(s, GetRequest(t.id), o);
      && Simulates(s', f) && r.Frame?
      && ReadGetReply(r.data, random) == Got(ClientCopy(t, o.pads, random % RANDOM_IDS))
      && Mirrors(ClientCopy(t, o.pads, random % RANDOM_IDS), t, o.pads)
  {
    var t := f.threads[i];
    ReadsGet(t.id);
    SimLookup(s, f, t.id, o.junk);
    IndexIs(f.threads, i);
    assert TracksAt(s, f, i);
    GetReplyRoundTrip(t, o.pads, random);
    CopyMirrors(t, o.pads, random % RANDOM_IDS);
  }

  lemma GetMissing(s: State, f: EagerForum, id: u64, o: Oracle, random: u64)
    requires Simulates(s, f) && IndexOf(f.threads, id) < 0
    ensures Answer(s, GetRequest(id), o) == (s, StatusReply(NFND))
    ensures ReadGetReply(StatusText(NFND), random) == BadReply
  {
    ReadsGet(id);
    SimIndex(s, f, id);
    hide ReadRequest, GetRequest, Simulates;
    assert |StatusText(NFND)| < |THRID|;
  }

  /** GTHR: the client reads a faithful copy exactly when the thread exists, loaded before or not. */
  lemma GetEndToEnd(s: State, f: EagerForum, id: u64, o: Oracle, random: u64)
    requires Simulates(s, f) && BooleanFlags(f)
    ensures var (s', r) := Answer(s, GetRequest(id), o);
      && Simulates(s', f) && r.Frame?
      && (ReadGetReply(r.data, random).Got? <==> HasId(f.threads, id))
      && (forall i :: 0 <= i < |f.threads| && f.threads[i].id == id && ReadGetReply(r.data, random).Got? ==>
           Mirrors(ReadGetReply(r.data, random).value, f.threads[i], o.pads))
  {
    var i := IndexOf(f.threads, id);
    if i >= 0 {
      GetFound(s, f, i, o, random);
      forall j | 0 <= j < |f.threads| && f.threads[j].id == id ensures j == i {
        IndexIs(f.threads, j);
      }
    } else {
      GetMissing(s, f, id, o, random);
    }
  }

  /** GTHR read by the documented layout: every message with its id on the server, text and flag. */
  lemma GetListing(s: State, f: EagerForum, i: nat, o: Oracle)
    requires Simulates(s, f) && i < |f.threads|
    ensures var t, r := f.threads[i], Answer(s, GetRequest(f.threads[i].id), o).1;
      r.Frame? && ApiReplies.ReadListing(r.data, 4)
        == Got(ApiReplies.Listing(t.id, t.topic, ApiReplies.AsListed(t.messages)))
  {
    var t := f.threads[i];
    ReadsGet(t.id);
    IndexIs(f.threads, i);
    assert TracksAt(s, f, i);
    ApiReplies.ListingRoundTrip(t, o.pads);
    hide ReadRequest, GetRequest, Simulates, ApiReplies.ReadListing, ApiReplies.AsListed, GetReply;
    SimLookup(s, f, t.id, o.junk);
  }

  // --------------------------------------------------------------------------- CTHR

  lemma CreatedThreadIs(id: u64, topic: bytes, o: Oracle)
    requires NulFree(topic)
    ensures var t := CreatedThread(id, topic, o);
      && t.id == id && t.topic == topic && t.messages == [] && MessageCount(t) == 0
      && t.author.Some? && t.author.value.token == o.token
      && (o.authorId < 0xffff_ffff ==> t.author.value.id == o.authorId)
  {
    CStrOfNulFree(topic);
  }

  lemma CreateAnswers(s: State, f: EagerForum, topic: bytes, o: Oracle)
    requires Simulates(s, f) && Room(f, 1) && GoodToken(o.token)
    requires NulFree(topic) && 3 <= |topic| <= 64
    ensures Answer(s, CreateRequest(topic), o).1 == Frame(CreateReply(f.nextId, o.token, o.tail))
    ensures Simulates(Answer(s, CreateRequest(topic), o).0,
                      EagerForum(f.threads + [CreatedThread(f.nextId, topic, o)], f.nextId + 1))
  {
    hide ReadRequest, CreateRequest, Simulates, CreateReply, CStr, CreatedThread, HandleCreate;
    ReadsCreate(topic);
    CStrOfNulFree(topic);
    SimCreate(s, f, topic, o, 0);
    assert (f.nextId + 1) % TWO_64 == f.nextId + 1;
  }

  /** CTHR: one new empty thread with the client's topic and a new id; the client reads that id and its token. */
  lemma CreateAccepted(s: State, f: EagerForum, topic: bytes, o: Oracle)
    requires Simulates(s, f) && Room(f, 1) && GoodToken(o.token)
    requires NulFree(topic) && 3 <= |topic| <= 64
    ensures var t, (s', r) := CreatedThread(f.nextId, topic, o), Answer(s, CreateRequest(topic), o);
      && t.id == f.nextId && !HasId(f.threads, t.id) && t.topic == topic && t.messages == []
      && Simulates(s', EagerForum(f.threads + [t], f.nextId + 1))
      && r.Frame? && ReadCreateReply(r.data) == Got(Created(t.id, t.author.value.token))
      && |t.author.value.token| == 24 && (o.authorId < 0xffff_ffff ==> t.author.value.id == o.authorId)
  {
    CreateAnswers(s, f, topic, o);
    CreatedThreadIs(f.nextId, topic, o);
    CreateReplyRoundTrip(f.nextId, o.token, o.tail);
    NextIdIsNew(s, f);
    hide Answer, Simulates, HasId, ReadCreateReply, CreateReply, CreatedThread;
  }

  lemma NextIdIsNew(s: State, f: EagerForum)
    requires Simulates(s, f)
    ensures !HasId(f.threads, f.nextId)
  {}

  lemma CreateRefused(s: State, topic: bytes, o: Oracle)
    requires NulFree(topic) && |topic| < TWO_64 && !(3 <= |topic| <= 64)
    ensures Answer(s, CreateRequest(topic), o) == (s, Frame(Api.Ascii("IDAT")))
    ensures ReadCreateReply(Api.Ascii("IDAT")) == BadReply
  {
    ReadsCreate(topic);
    Api.StatusWords();
    hide ReadRequest, CreateRequest;
    assert StatusText(IDAT)[0] == 73;
  }

  // --------------------------------------------------------------------------- FTHR

  /** Positions of the threads whose topic contains the part. */
  function MatchesFrom(ts: seq<Thread>, part: bytes, from: nat): seq<nat>
    requires from <= |ts|
    decreases |ts| - from
  {
    if from == |ts| then []
    else (if Contains(ts[from].topic, part) then [from] else []) + MatchesFrom(ts, part, from + 1)
  }

  lemma {:induction false} MatchesFromExactly(ts: seq<Thread>, part: bytes, from: nat)
    requires from <= |ts|
    ensures var ps := MatchesFrom(ts, part, from);
      && (forall k :: 0 <= k < |ps| ==> from <= ps[k] < |ts|)
      && (forall j, k :: 0 <= j < k < |ps| ==> ps[j] < ps[k])
      && (forall i :: from <= i < |ts| ==> (i in ps <==> Contains(ts[i].topic, part)))
    decreases |ts| - from
  {
    hide Contains;
    if from < |ts| {
      MatchesFromExactly(ts, part, from + 1);
      var rest := MatchesFrom(ts, part, from + 1);
      assert from !in rest;
      assert MatchesFrom(ts, part, from) == if Contains(ts[from].topic, part) then [from] + rest else rest;
      hide MatchesFrom;
    }
  }

  lemma {:induction false} MatchesAreAtPositions(ts: seq<Thread>, part: bytes, from: nat)
    requires from <= |ts|
    ensures var ps, fs := MatchesFrom(ts, part, from), Matches(ts[from..], part);
      |fs| == |ps| && forall k :: 0 <= k < |ps| ==>
        0 <= ps[k] < |ts| && fs[k] == Found(ts[ps[k]].id, ts[ps[k]].topic)
    decreases |ts| - from
  {
    if from < |ts| {
      MatchesAreAtPositions(ts, part, from + 1);
      assert ts[from..][1..] == ts[from + 1..] && ts[from..][0] == ts[from];
    }
  }

  ghost predicate TopicHas(t: Thread, part: bytes) {
    exists at: nat :: OccursAt(t.topic, part, at)
  }

  ghost predicate NoneHas(ts: seq<Thread>, part: bytes) {
    forall i :: 0 <= i < |ts| ==> !TopicHas(ts[i], part)
  }

  /** The (id, topic) pairs of exactly the threads whose topic contains the part, in registry order. */
  ghost predicate ExactlyTheMatches(ts: seq<Thread>, part: bytes, fs: seq<Found>, ps: seq<nat>) {
    && |fs| == |ps|
    && (forall k :: 0 <= k < |ps| ==> ps[k] < |ts| && fs[k] == Found(ts[ps[k]].id, ts[ps[k]].topic))
    && (forall j, k :: 0 <= j < k < |ps| ==> ps[j] < ps[k])
    && (forall i :: 0 <= i < |ts| ==> (i in ps <==> TopicHas(ts[i], part)))
  }

  lemma MatchesExactly(ts: seq<Thread>, part: bytes)
    ensures ExactlyTheMatches(ts, part, Matches(ts, part), MatchesFrom(ts, part, 0))
  {
    MatchesFromExactly(ts, part, 0);
    MatchesAreAtPositions(ts, part, 0);
    assert ts[0..] == ts;
    forall i | 0 <= i < |ts| ensures Contains(ts[i].topic, part) <==> TopicHas(ts[i], part) {
      ContainsMeansSubstring(ts[i].topic, part);
    }
  }

  lemma MatchesAreGood(ts: seq<Thread>, part: bytes)
    requires forall i :: 0 <= i < |ts| ==> NulFree(ts[i].topic) && |ts[i].topic| < TWO_64
    ensures forall k :: 0 <= k < |Matches(ts, part)| ==>
      NulFree(Matches(ts, part)[k].topic) && |Matches(ts, part)[k].topic| < TWO_64
  {
    MatchesExactly(ts, part);
  }

  lemma TopicsTrack(s: State, f: EagerForum)
    requires Simulates(s, f)
    ensures |s.threads| == |f.threads|
    ensures forall i :: 0 <= i < |f.threads| ==>
      && s.threads[i].id == f.threads[i].id && s.threads[i].topic == f.threads[i].topic
      && NulFree(f.threads[i].topic) && |f.threads[i].topic| < TWO_64
  {
    forall i | 0 <= i < |f.threads|
      ensures s.threads[i].id == f.threads[i].id && s.threads[i].topic == f.threads[i].topic
      ensures NulFree(f.threads[i].topic) && |f.threads[i].topic| < TWO_64
    {
      assert TracksAt(s, f, i);
    }
  }

  lemma FindIsHandled(s: State, part: bytes, o: Oracle)
    requires NulFree(part) && 3 <= |part| <= 64
    ensures Answer(s, FindRequest(part), o) == (s, Frame(FindReply(Matches(s.threads, part))))
  {
    ReadsFind(part);
    hide ReadRequest, FindRequest, Matches, FindReply;
  }

  lemma FindAnswers(s: State, f: EagerForum, part: bytes, o: Oracle)
    requires Simulates(s, f) && NulFree(part) && 3 <= |part| <= 64
    ensures Answer(s, FindRequest(part), o) == (s, Frame(FindReply(Matches(f.threads, part))))
  {
    hide *;
    FindIsHandled(s, part, o);
    TopicsTrack(s, f);
    SameMatches(s.threads, f.threads, part);
  }

  lemma NoneFound(ts: seq<Thread>, part: bytes, fs: seq<Found>, ps: seq<nat>)
    requires ExactlyTheMatches(ts, part, fs, ps)
    ensures fs == [] <==> NoneHas(ts, part)
  {
    if ps != [] {
      assert ps[0] in ps;
    }
  }

  /** A reply from which the client reads exactly the matching threads, and which is NFND when there are none. */
  ghost predicate TellsTheMatches(ts: seq<Thread>, part: bytes, r: Reply) {
    && r.Frame? && ReadFindReply(r.data).Got?
    && ExactlyTheMatches(ts, part, ReadFindReply(r.data).value, MatchesFrom(ts, part, 0))
    && (r == StatusReply(NFND) <==> NoneHas(ts, part))
  }

  lemma FindReplyTells(ts: seq<Thread>, part: bytes)
    requires forall i :: 0 <= i < |ts| ==> NulFree(ts[i].topic) && |ts[i].topic| < TWO_64
    ensures TellsTheMatches(ts, part, Frame(FindReply(Matches(ts, part))))
  {
    assert StatusReply(NFND) == Frame(NFND_TEXT);
    hide Matches, MatchesFrom, FindReply, ReadFindReply, StatusReply, NoneHas;
    MatchesExactly(ts, part);
    MatchesAreGood(ts, part);
    FindReplyRoundTrip(Matches(ts, part));
    NoneFound(ts, part, Matches(ts, part), MatchesFrom(ts, part, 0));
  }

  /** FTHR end to end. */
  lemma FindEndToEnd(s: State, f: EagerForum, part: bytes, o: Oracle)
    requires Simulates(s, f) && NulFree(part) && 3 <= |part| <= 64
    ensures Answer(s, FindRequest(part), o).0 == s
    ensures TellsTheMatches(f.threads, part, Answer(s, FindRequest(part), o).1)
  {
    hide Answer, FindRequest, TellsTheMatches, Simulates;
    FindAnswers(s, f, part, o);
    TopicsTrack(s, f);
    FindReplyTells(f.threads, part);
  }

  lemma FindRefused(s: State, part: bytes, o: Oracle)
    requires NulFree(part) && |part| < TWO_64 && !(3 <= |part| <= 64)
    ensures Answer(s, FindRequest(part), o) == (s, Frame(Api.Ascii("IDAT")))
    ensures ReadFindReply(Api.Ascii("IDAT")) == BadReply
  {
    ReadsFind(part);
    Api.StatusWords();
    hide ReadRequest, FindRequest;
    var d := StatusText(IDAT);
    assert d[0] == 73;
    assert Eat(NFND_TEXT, d).None? by { assert NFND_TEXT[0] == 78; }
  }

  // --------------------------------------------------------------------------- CMSG

  /** By the author exactly if the very token of the thread came along. */
  function ExpectedMessage(t: Thread, text: bytes, token: Option<bytes>): Message
    requires t.author.Some?
  {
    Message(t.next, text, if token == Some(t.author.value.token) then 1 else 0)
  }

  function ExpectedThread(t: Thread, text: bytes, token: Option<bytes>): Thread
    requires t.author.Some? && t.next + 1 < TWO_64
  {
    t.(next := t.next + 1, messages := t.messages + [ExpectedMessage(t, text, token)])
  }

  /** A supplied token marks a message as the author's exactly if it is the author's, or the author is missing. */
  lemma AuthorFlagExactly(t: Thread, token: bytes)
    requires |token| == 24 && (t.author.Some? ==> GoodToken(t.author.value.token))
    ensures PostFlag(t, Some(token)) != 0 <==> (t.author.None? || token == t.author.value.token)
    ensures t.author.Some? ==> PostFlag(t, Some(token)) == if token == t.author.value.token then 1 else 0
  {
    if t.author.Some? {
      TokenTestIsExact(t, token);
      assert token[..24] == token;
    }
  }

  lemma PostedAsExpected(t: Thread, text: bytes, token: Option<bytes>)
    requires GoodThread(t) && TextFits(text) && t.next + 1 < TWO_64
    requires token.Some? ==> |token.value| == 24
    ensures WithMessage(t, text, PostFlag(t, token)) == ExpectedThread(t, text, token)
  {
    if token.Some? {
      TokenTestIsExact(t, token.value);
      assert token.value[..24] == token.value;
    }
  }

  /** CMSG: exactly one message more in exactly one thread, flagged by the author's token and nothing else. */
  lemma PostAccepted(
    s: State, f: EagerForum, i: nat, text: bytes, token: Option<bytes>, o: Oracle
  )
    requires Simulates(s, f) && Room(f, 1) && i < |f.threads| && f.threads[i].author.Some?
    requires NulFree(text) && 3 <= |text| <= 512 && (token.Some? ==> |token.value| == 24)
    ensures Answer(s, PostRequest(f.threads[i].id, text, token), o).1 == Frame(Api.Ascii("OK"))
    ensures Simulates(Answer(s, PostRequest(f.threads[i].id, text, token), o).0,
                      f.(threads := f.threads[i := ExpectedThread(f.threads[i], text, token)]))
  {
    var t := f.threads[i];
    assert TracksAt(s, f, i);
    assert GoodThread(t) && TextFits(text) && t.next + 1 < TWO_64 && DistinctIds(f.threads) && NulFree(text);
    hide *;
    PostIsHandled(s, t.id, text, token, o);
    PostedAsExpected(t, text, token);
    SimPost(s, f, t.id, Text(text, token), o, 0);
    EagerPost(f, i, text, token, o);
  }

  lemma PostIsHandled(s: State, id: u64, text: bytes, token: Option<bytes>, o: Oracle)
    requires NulFree(text) && 3 <= |text| <= 512
    ensures Answer(s, PostRequest(id, text, token), o) == HandlePost(s, id, Text(text, token), o)
  {
    ReadsPost(id, text, token);
    hide ReadRequest, PostRequest, HandlePost;
  }

  lemma EagerPost(f: EagerForum, i: nat, text: bytes, token: Option<bytes>, o: Oracle)
    requires i < |f.threads| && DistinctIds(f.threads)
    ensures EagerHandle(f, Post(f.threads[i].id, Text(text, token)), o)
         == (f.(threads := f.threads[i := WithMessage(f.threads[i], text, PostFlag(f.threads[i], token))]),
             Frame(Api.Ascii("OK")))
  {
    IndexIs(f.threads, i);
    Api.StatusWords();
    hide WithMessage, PostFlag, StatusText;
  }

  /** A text outside 3..512 bytes, or an unknown thread: nothing changes for any client. */
  lemma PostRefused(s: State, f: EagerForum, id: u64, text: bytes, token: Option<bytes>, o: Oracle)
    requires Simulates(s, f) && Room(f, 1)
    requires NulFree(text) && |text| < TWO_64 && (HasId(f.threads, id) ==> !(3 <= |text| <= 512))
    ensures Answer(s, PostRequest(id, text, token), o).1
         == Frame(if HasId(f.threads, id) then Api.Ascii("IDAT") else Api.Ascii("NFND"))
    ensures Simulates(Answer(s, PostRequest(id, text, token), o).0, f)
  {
    ReadsPost(id, text, token);
    IndexMeansHasId(f.threads, id);
    Api.StatusWords();
    hide ReadRequest, PostRequest, Simulates, HasId, StatusText;
    SimPost(s, f, id, if TextFits(text) then Text(text, token) else BadBody(IDAT), o, 0);
  }

  lemma IndexMeansHasId(ts: seq<Thread>, id: u64)
    ensures IndexOf(ts, id) >= 0 <==> HasId(ts, id)
  {}

  /** The answer to a message that is acceptable, or that is not. */
  ghost predicate Acceptable(f: EagerForum, id: u64, text: bytes) {
    HasId(f.threads, id) && 3 <= |text| <= 512
  }

  lemma StatusIsRead(status: Status)
    ensures ReadStatusReply(StatusText(status)) == OK <==> status == OK
  {
    assert StatusText(status)[0] == 79 ==> status == OK;
  }

  /** CMSG end to end: the client reads OK if and only if the message was taken. */
  lemma PostEndToEnd(s: State, f: EagerForum, id: u64, text: bytes, token: Option<bytes>, o: Oracle)
    requires Simulates(s, f) && Room(f, 1) && NulFree(text) && |text| < TWO_64
    requires token.Some? ==> |token.value| == 24
    ensures var r := Answer(s, PostRequest(id, text, token), o).1;
      r.Frame? && (ReadStatusReply(r.data) == OK <==> Acceptable(f, id, text))
  {
    StatusIsRead(OK);
    StatusIsRead(IDAT);
    StatusIsRead(NFND);
    Api.StatusWords();
    IndexMeansHasId(f.threads, id);
    if Acceptable(f, id, text) {
      var i := IndexOf(f.threads, id);
      assert TracksAt(s, f, i);
      hide Answer, Simulates, StatusText, ReadStatusReply, Api.Ascii;
      PostAccepted(s, f, i, text, token, o);
    } else {
      hide Answer, Simulates, StatusText, ReadStatusReply, Api.Ascii;
      PostRefused(s, f, id, text, token, o);
    }
  }

  /** The client's menu hands the answer to CMSG to the parser of GTHR replies, which takes none of them. */
  lemma MenuMisreadsEveryAnswer(status: Status, random: u64)
    ensures ReadGetReply(StatusText(status), random) == BadReply
  {
    assert |StatusText(status)| < |THRID|;
  }

  // --------------------------------------------------------------------------- META

  lemma {:induction false} BelowIsFew(ids: set<u64>, bound: nat)
    requires forall id :: id in ids ==> id < bound
    ensures |ids| <= bound
    decreases bound
  {
    if bound > 0 {
      BelowIsFew(ids - {bound - 1}, bound - 1);
    } else {
      assert ids == {};
    }
  }

  /** There are no more threads than ids given out. */
  lemma FewerThreadsThanIds(s: State, f: EagerForum)
    requires Simulates(s, f)
    ensures |s.threads| == |f.threads| <= f.nextId < TWO_64
  {
    var ids := IdsOf(f.threads);
    DistinctSize(ids);
    BelowIsFew(IdSet(ids), f.nextId);
  }

  lemma MetaAnswer(s: State, o: Oracle)
    ensures Answer(s, META, o) == (s, Frame(MetaReply(|s.threads|)))
  {
    Api.WhoReads(META);
    Api.OneCommand(META);
    hide ReadRequest, MetaReply;
  }

  /** META: the bounds that CTHR, FTHR and CMSG enforce, the number of threads, and the version; nothing changes. */
  lemma MetaEndToEnd(s: State, f: EagerForum, o: Oracle)
    requires Simulates(s, f)
    ensures |f.threads| < TWO_64
    ensures var (s', r) := Answer(s, META, o);
      && s' == s && r.Frame?
      && ReadMetaReply(r.data) == Got(MetaInfo(3, 64, 3, 512, |f.threads|, Api.Ascii("LeForum Server v0.1")))
  {
    MetaAnswer(s, o);
    hide *;
    FewerThreadsThanIds(s, f);
    Api.Version();
    MetaReplyRoundTrip(|f.threads|);
  }

  /** A client that keeps to the announced bounds has its topics and texts taken, and no other client has. */
  lemma AnnouncedBoundsAreEnforced(
    s: State, f: EagerForum, topic: bytes, id: u64, text: bytes, o: Oracle, meta: MetaInfo
  )
    requires Simulates(s, f) && Room(f, 1) && GoodToken(o.token) && NulFree(topic) && |topic| < TWO_64
    requires NulFree(text) && |text| < TWO_64 && HasId(f.threads, id)
    requires var r := Answer(s, META, o).1; r.Frame? && ReadMetaReply(r.data) == Got(meta)
    ensures var r := Answer(s, CreateRequest(topic), o).1;
      r.Frame? && (ReadCreateReply(r.data).Got? <==> meta.minTopic <= |topic| <= meta.maxTopic)
    ensures var r := Answer(s, PostRequest(id, text, None), o).1;
      r.Frame? && (ReadStatusReply(r.data) == OK <==> meta.minMessage <= |text| <= meta.maxMessage)
  {
    hide Answer, Simulates, GoodToken, Room, CreatedThread, Api.Ascii, ReadMetaReply, ReadCreateReply, HasId;
    MetaEndToEnd(s, f, o);
    if 3 <= |topic| <= 64 { CreateAccepted(s, f, topic, o); } else { CreateRefused(s, topic, o); }
    PostEndToEnd(s, f, id, text, None, o);
  }

  // ------------------------------------------------------- LIVE, refusals, and the rest

  /** What needs no thread is answered with one word, and changes nothing. */
  lemma PlainAnswers(s: State, p: bytes, o: Oracle)
    ensures Api.Means(p, Live) ==> Answer(s, p, o) == (s, Frame(Api.Ascii("OK")))
    ensures Api.Means(p, Reject(IDAT)) ==> Answer(s, p, o) == (s, Frame(Api.Ascii("IDAT")))
    ensures (forall r :: !Api.Means(p, r)) ==> Answer(s, p, o) == (s, Frame(Api.Ascii("ISYN")))
  {
    Api.UnderstandsExactly(p, Live);
    Api.UnderstandsExactly(p, Reject(IDAT));
    Api.RestIsSyntaxError(p);
    Api.StatusWords();
    hide ReadRequest, Api.Means, StatusText, Api.Ascii;
  }

  /** CMSG with a malformed rest, or sizes out of bounds: the thread's absence comes first, and nothing changes. */
  lemma BadBodyIsAnswered(s: State, f: EagerForum, p: bytes, id: u64, status: Status, o: Oracle)
    requires Simulates(s, f) && Room(f, 1) && Api.Means(p, Post(id, BadBody(status)))
    ensures status in {ISYN, IDAT}
    ensures Answer(s, p, o).1 == Frame(
      if !HasId(f.threads, id) then Api.Ascii("NFND")
      else if status == ISYN then Api.Ascii("ISYN") else Api.Ascii("IDAT"))
    ensures Simulates(Answer(s, p, o).0, f)
  {
    Api.UnderstandsExactly(p, Post(id, BadBody(status)));
    Api.BadBodyStatus(p, id, status);
    Api.StatusWords();
    IndexMeansHasId(f.threads, id);
    hide ReadRequest, Simulates, HasId, StatusText, Api.Means, Api.Ascii;
    SimPost(s, f, id, BadBody(status), o, 0);
  }

  lemma UndefinedExactly(s: State, r: Request, o: Oracle)
    ensures Handle(s, r, o).1 == Undefined
       <==> r.UndefinedRequest? || (r.Post? && r.body.UndefinedBody? && HasId(s.threads, r.id))
  {
    if r.Post? { IndexMeansHasId(s.threads, r.id); }
    hide HasId, Touch, GetReply, FindReply, MetaReply;
  }

  /**
    The packets that runs may hold are all of at most 1048576 bytes but two kinds: FTHR that ends within its size
    field, and CMSG to a thread that is there with a text of fewer bytes than announced, or than three before a NUL.
   */
  lemma CleanPacketsExactly(s: State, data: bytes, o: Oracle)
    ensures CleanEvent(s, Packet(data, o))
       <==> |data| <= 1048576 && GoodToken(o.token) && !Api.Means(data, UndefinedRequest)
            && forall id :: HasId(s.threads, id) ==> !Api.Means(data, Post(id, UndefinedBody))
  {
    var r := ReadRequest(data);
    UndefinedExactly(s, r, o);
    Api.UnderstandsExactly(data, UndefinedRequest);
    forall id: u64 ensures Api.Means(data, Post(id, UndefinedBody)) <==> r == Post(id, UndefinedBody) {
      Api.UnderstandsExactly(data, Post(id, UndefinedBody));
    }
    hide ReadRequest, Api.Means, Handle, HasId, GoodToken;
  }

  // ------------------------------------------------------------------- put together

  /** What is posted is what is read next: the copy ends with the text, marked as the author's iff it was. */
  lemma PostThenGet(
    s: State, f: EagerForum, i: nat, text: bytes, token: Option<bytes>, o: Oracle, o': Oracle, random: u64
  )
    requires Simulates(s, f) && BooleanFlags(f) && Room(f, 1) && i < |f.threads|
    requires NulFree(text) && 3 <= |text| <= 512 && (token.Some? ==> |token.value| == 24)
    ensures var t := f.threads[i];
      var s1 := Answer(s, PostRequest(t.id, text, token), o).0;
      var r := Answer(s1, GetRequest(t.id), o').1;
      && r.Frame? && ReadGetReply(r.data, random).Got?
      && Mirrors(ReadGetReply(r.data, random).value, ExpectedThread(t, text, token), o'.pads)
  {
    var t, u := f.threads[i], ExpectedThread(f.threads[i], text, token);
    var f' := f.(threads := f.threads[i := u]);
    PostAccepted(s, f, i, text, token, o);
    PostedAsExpectedFlags(f, i, text, token);
    var s1 := Answer(s, PostRequest(t.id, text, token), o).0;
    hide Answer, Simulates, BooleanFlags, Mirrors, ReadGetReply;
    GetFound(s1, f', i, o', random);
  }

  lemma PostedAsExpectedFlags(f: EagerForum, i: nat, text: bytes, token: Option<bytes>)
    requires BooleanFlags(f) && i < |f.threads| && f.threads[i].next + 1 < TWO_64
    ensures BooleanFlags(f.(threads := f.threads[i := ExpectedThread(f.threads[i], text, token)]))
  {}

  /** The writers drain their queues, the server restarts, and a client still reads the whole thread. */
  lemma GetAfterRestart(
    s: State, f: EagerForum, i: nat, graceful: bool, order: seq<u64>, o: Oracle, random: u64
  )
    requires Simulates(s, f) && BooleanFlags(f) && i < |f.threads| && Listing(DrainAll(s).dirs, order)
    ensures var s1 := Reboot(DrainAll(s), graceful, order);
      var r := Answer(s1, GetRequest(f.threads[i].id), o).1;
      && r.Frame? && ReadGetReply(r.data, random).Got?
      && Mirrors(ReadGetReply(r.data, random).value, Reloaded(f.threads[i]), o.pads)
  {
    var s', us := DrainAll(s), Reordered(f.threads, order);
    DrainingDrains(s, f);
    SimRestart(s', f, graceful, order);
    RestartKeepsThread(s', f, order, i);
    ReorderedKeepsFlags(f.threads, order);
    var k :| 0 <= k < |us| && us[k] == Reloaded(f.threads[i]);
    hide Answer, Simulates, Mirrors, ReadGetReply, Reboot, DrainAll, Reordered;
    GetFound(Reboot(s', graceful, order), f.(threads := us), k, o, random);
  }
}
