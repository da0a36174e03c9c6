/** The wire format as pure functions: requests, replies, and what each side reads back out of them. */
module Wire {
  import opened Bytes
  import opened Forum

  // ------------------------------------------------------------------ tags (ASCII)

  const GTHR: bytes := [71, 84, 72, 82]
  const CTHR: bytes := [67, 84, 72, 82]
  const FTHR: bytes := [70, 84, 72, 82]
  const CMSG: bytes := [67, 77, 83, 71]
  const META: bytes := [77, 69, 84, 65]
  const LIVE: bytes := [76, 73, 86, 69]

  const THRID: bytes := [84, 72, 82, 73, 68]
  const TPCSZ: bytes := [84, 80, 67, 83, 90]
  const TPC: bytes := [84, 80, 67]
  const TPCPSZ: bytes := [84, 80, 67, 80, 83, 90]
  const TPCP: bytes := [84, 80, 67, 80]
  const TXTSZ: bytes := [84, 88, 84, 83, 90]
  const TXT: bytes := [84, 88, 84]
  const TKN: bytes := [84, 75, 78]
  const MSGCNT: bytes := [77, 83, 71, 67, 78, 84]
  const MSG: bytes := [77, 83, 71]
  const MSGEND: bytes := [77, 83, 71, 69, 78, 68]
  const NFND_TEXT: bytes := [78, 70, 78, 68]

  const MINTPCSZ: bytes := [77, 73, 78, 84, 80, 67, 83, 90]
  const MAXTPCSZ: bytes := [77, 65, 88, 84, 80, 67, 83, 90]
  const MINMSGSZ: bytes := [77, 73, 78, 77, 83, 71, 83, 90]
  const MAXMSGSZ: bytes := [77, 65, 88, 77, 83, 71, 83, 90]
  const THRN: bytes := [84, 72, 82, 78]
  const VERSZ: bytes := [86, 69, 82, 83, 90]
  const VER: bytes := [86, 69, 82]

  /** `argp_program_version` of the server. */
  const VERSION: bytes :=
    [76, 101, 70, 111, 114, 117, 109, 32, 83, 101, 114, 118, 101, 114, 32, 118, 48, 46, 49]

  /** What the client's parsers of the CMSG and LIVE replies compare with. */
  const OK_TAG: bytes := [79, 75]

  /** `get_lestatus_string_repr`. */
  function StatusText(s: Status): (r: bytes)
    ensures r != []
  {
    match s
    case OK => [79, 75]
    case CLIB => [67, 76, 73, 66]
    case NSFD => [78, 83, 70, 68]
    case EXST => [69, 88, 83, 84]
    case NFND => NFND_TEXT
    case ISYN => [73, 83, 89, 78]
    case IDAT => [73, 68, 65, 84]
    case NPTR => [78, 80, 84, 82]
  }

  // -------------------------------------------------------------- client requests

  function GetRequest(id: u64): bytes {
    GTHR + (THRID + U64(id))
  }

  function CreateRequest(topic: bytes): bytes
  {
    CTHR + (TPCSZ + (U64(|topic|) + (TPC + topic)))
  }

  function FindRequest(part: bytes): bytes
  {
    FTHR + (TPCPSZ + (U64(|part|) + (TPCP + part)))
  }

  function TokenField(token: Option<bytes>): bytes {
    if token.Some? then TKN + token.value else []
  }

  function PostRequest(id: u64, text: bytes, token: Option<bytes>): bytes
  {
    CMSG + (THRID + (U64(id) + (TXTSZ + (U64(|text|) + (TXT + (text + TokenField(token)))))))
  }

  // ------------------------------------------------- what the server reads in a packet

  /** `Undefined`: the C code would step outside the packet or queue an uninitialised message. */
  datatype Body = Text(text: bytes, token: Option<bytes>) | BadBody(status: Status) | UndefinedBody

  datatype Request =
    | Get(id: u64)
    | Create(topic: bytes)
    | Find(part: bytes)
    | Post(id: u64, body: Body)
    | Meta
    | Live
    | Reject(status: Status)
    | UndefinedRequest

  function ReadGet(d: bytes): Request {
    if |d| < 13 then Reject(ISYN) else
    match Eat(THRID, d)
    case None => Reject(ISYN)
    case Some(d1) => Get(EatU64(d1).value.0)
  }

  predicate TopicSizeFits(size: nat) {
    MIN_TOPIC_SIZE <= size <= MAX_TOPIC_SIZE
  }

  /** The topic runs to the NUL after the packet; the declared size is only checked against the bounds. */
  function ReadCreate(d: bytes): Request {
    if |d| < 16 then Reject(ISYN) else
    match Eat(TPCSZ, d)
    case None => Reject(ISYN)
    case Some(d1) =>
      var (size, d2) := EatU64(d1).value;
      if !TopicSizeFits(size) then Reject(IDAT) else
      match Eat(TPC, d2)
      case None => Reject(ISYN)
      case Some(d3) => Create(CStr(d3))
  }

  function ReadFind(d: bytes): Request {
    match Eat(TPCPSZ, d)
    case None => Reject(ISYN)
    case Some(d1) =>
      if |d1| < 8 then UndefinedRequest else
      var (size, d2) := EatU64(d1).value;
      if !TopicSizeFits(size) then Reject(IDAT) else
      match Eat(TPCP, d2)
      case None => Reject(ISYN)
      case Some(d3) => Find(CStrN(d3, size))
  }

  function ReadBody(d: bytes): Body
    requires |d| >= 16
  {
    match Eat(TXTSZ, d)
    case None => BadBody(ISYN)
    case Some(d1) =>
      var (size, d2) := EatU64(d1).value;
      if size > MAX_MESSAGE_SIZE || size < MIN_MESSAGE_SIZE then BadBody(IDAT) else
      match Eat(TXT, d2)
      case None => BadBody(ISYN)
      case Some(d3) =>
        if |d3| < size || !TextFits(CStrN(d3, size)) then UndefinedBody
        else Text(CStrN(d3, size), Eat(TKN, d3[size..]))
  }

  function ReadPost(d: bytes): Request {
    if |d| < 29 then Reject(ISYN) else
    match Eat(THRID, d)
    case None => Reject(ISYN)
    case Some(d1) =>
      var (id, d2) := EatU64(d1).value;
      Post(id, ReadBody(d2))
  }

  /** `query_process`: the first command in the table whose name starts the packet. */
  function ReadRequest(p: bytes): Request {
    if Eat(GTHR, p).Some? then ReadGet(p[4..])
    else if Eat(CTHR, p).Some? then ReadCreate(p[4..])
    else if Eat(FTHR, p).Some? then ReadFind(p[4..])
    else if Eat(CMSG, p).Some? then ReadPost(p[4..])
    else if Eat(META, p).Some? then Meta
    else if Eat(LIVE, p).Some? then Live
    else Reject(ISYN)
  }

  /** The command decides who reads the rest. */
  lemma Dispatches(d: bytes)
    ensures ReadRequest(GTHR + d) == ReadGet(d) && ReadRequest(CTHR + d) == ReadCreate(d)
    ensures ReadRequest(FTHR + d) == ReadFind(d) && ReadRequest(CMSG + d) == ReadPost(d)
  {
    EatTag(GTHR, d);
    EatTag(CTHR, d);
    EatTag(FTHR, d);
    EatTag(CMSG, d);
    hide ReadGet, ReadCreate, ReadFind, ReadPost;
    assert (GTHR + d)[4..] == d && (CTHR + d)[4..] == d && (FTHR + d)[4..] == d && (CMSG + d)[4..] == d;
    assert Eat(GTHR, CTHR + d).None? by { assert (CTHR + d)[0] == 67; }
    assert Eat(GTHR, FTHR + d).None? && Eat(CTHR, FTHR + d).None? by { assert (FTHR + d)[0] == 70; }
    assert Eat(GTHR, CMSG + d).None? && Eat(CTHR, CMSG + d).None? && Eat(FTHR, CMSG + d).None? by {
      assert (CMSG + d)[0] == 67 && (CMSG + d)[1] == 77;
    }
  }

  lemma ReadsGet(id: u64)
    ensures ReadRequest(GetRequest(id)) == Get(id)
  {
    Dispatches(THRID + U64(id));
    EatTag(THRID, U64(id));
    EatU64Prefix(id, []);
    assert U64(id) + [] == U64(id);
  }

  lemma ReadsCreate(topic: bytes)
    requires NulFree(topic) && |topic| < TWO_64
    ensures ReadRequest(CreateRequest(topic)) == if 3 <= |topic| <= 64 then Create(topic) else Reject(IDAT)
  {
    Dispatches(TPCSZ + (U64(|topic|) + (TPC + topic)));
    EatTag(TPCSZ, U64(|topic|) + (TPC + topic));
    EatU64Prefix(|topic|, TPC + topic);
    EatTag(TPC, topic);
    CStrOfNulFree(topic);
  }

  lemma ReadsFind(part: bytes)
    requires NulFree(part) && |part| < TWO_64
    ensures ReadRequest(FindRequest(part)) == if 3 <= |part| <= 64 then Find(part) else Reject(IDAT)
  {
    Dispatches(TPCPSZ + (U64(|part|) + (TPCP + part)));
    EatTag(TPCPSZ, U64(|part|) + (TPCP + part));
    EatU64Prefix(|part|, TPCP + part);
    EatTag(TPCP, part);
    CStrNPrefix(part, []);
    assert part + [] == part;
  }

  /** The text field alone, for any text the client could send, whatever its length. */
  lemma ReadsBody(text: bytes, token: Option<bytes>)
    requires NulFree(text) && |text| < TWO_64
    ensures ReadBody(TXTSZ + (U64(|text|) + (TXT + (text + TokenField(token)))))
         == if 3 <= |text| <= 512 then Text(text, token) else BadBody(IDAT)
  {
    var tail := TokenField(token);
    EatTag(TXTSZ, U64(|text|) + (TXT + (text + tail)));
    EatU64Prefix(|text|, TXT + (text + tail));
    EatTag(TXT, text + tail);
    CStrNPrefix(text, tail);
    assert (text + tail)[|text|..] == tail;
    if token.Some? {
      EatTag(TKN, token.value);
    }
  }

  lemma ReadsPost(id: u64, text: bytes, token: Option<bytes>)
    requires NulFree(text) && |text| < TWO_64
    ensures ReadRequest(PostRequest(id, text, token))
         == Post(id, if 3 <= |text| <= 512 then Text(text, token) else BadBody(IDAT))
  {
    var body := TXTSZ + (U64(|text|) + (TXT + (text + TokenField(token))));
    Dispatches(THRID + (U64(id) + body));
    ReadsBody(text, token);
    PostLength(id, text, token);
    hide ReadBody, TokenField, ReadRequest;
    EatTag(THRID, U64(id) + body);
    EatU64Prefix(id, body);
  }

  lemma PostLength(id: u64, text: bytes, token: Option<bytes>)
    ensures |TXTSZ + (U64(|text|) + (TXT + (text + TokenField(token))))| >= 16
  {}

  // --------------------------------------------------------------- server replies

  /** The three bytes of the flag slot that the server leaves as it found them. */
  type Padding = p: bytes | |p| == 3 witness [0, 0, 0]

  function Record(m: Message, pad: Padding): bytes
  {
    MSG + (([m.byAuthor % 256] + pad) + (U64(m.id) + (U64(|m.text|) + (m.text + MSGEND))))
  }

  function HeadPad(pads: seq<Padding>): Padding {
    if pads == [] then [0, 0, 0] else pads[0]
  }

  function TailPads(pads: seq<Padding>): seq<Padding> {
    if pads == [] then [] else pads[1..]
  }

  function Records(ms: seq<Message>, pads: seq<Padding>): bytes
  {
    if ms == [] then [] else Record(ms[0], HeadPad(pads)) + Records(ms[1..], TailPads(pads))
  }

  function ThreadHeader(id: u64, topic: bytes, rest: bytes): bytes
  {
    THRID + (U64(id) + (TPCSZ + (U64(|topic|) + (TPC + (topic + rest)))))
  }

  function GetReply(t: Thread, pads: seq<Padding>): bytes
  {
    ThreadHeader(t.id, t.topic, MSGCNT + (U64(MessageCount(t)) + Records(t.messages, pads)))
  }

  /** The reply to CTHR declares two bytes more than it fills; they hold whatever was there. */
  function CreateReply(id: u64, token: bytes, tail: bytes): bytes {
    THRID + (U64(id) + (TKN + (token + tail)))
  }

  datatype Found = Found(id: u64, topic: bytes)

  function FoundRecords(fs: seq<Found>): bytes
  {
    if fs == [] then [] else ThreadHeader(fs[0].id, fs[0].topic, FoundRecords(fs[1..]))
  }

  function FindReply(fs: seq<Found>): bytes
  {
    if fs == [] then NFND_TEXT else FoundRecords(fs)
  }

  /** A tag, a number, and what follows. */
  function Field(tag: bytes, n: nat, rest: bytes): bytes {
    tag + (U64(n) + rest)
  }

  /** Bounds, number of threads and version. */
  function MetaReply(threadCount: nat): bytes {
    Field(MINTPCSZ, MIN_TOPIC_SIZE, Field(MAXTPCSZ, MAX_TOPIC_SIZE,
      Field(MINMSGSZ, MIN_MESSAGE_SIZE, Field(MAXMSGSZ, MAX_MESSAGE_SIZE,
      Field(THRN, threadCount, Field(VERSZ, |VERSION|, VER + VERSION))))))
  }

  lemma {:induction false} RecordsSnoc(ms: seq<Message>, pads: seq<Padding>, m: Message, pad: Padding)
    requires |pads| == |ms|
    ensures Records(ms + [m], pads + [pad]) == Records(ms, pads) + Record(m, pad)
  {
    if ms == [] {
      assert ms + [m] == [m] && pads + [pad] == [pad];
      assert Records([], []) == [];
    } else {
      assert (ms + [m])[1..] == ms[1..] + [m] && (pads + [pad])[1..] == pads[1..] + [pad];
      RecordsSnoc(ms[1..], pads[1..], m, pad);
    }
  }

  lemma {:induction false} FoundRecordsSnoc(fs: seq<Found>, f: Found)
    ensures FoundRecords(fs + [f]) == FoundRecords(fs) + ThreadHeader(f.id, f.topic, [])
  {
    if fs == [] {
      assert fs + [f] == [f];
      assert FoundRecords([]) == [];
    } else {
      assert (fs + [f])[1..] == fs[1..] + [f];
      FoundRecordsSnoc(fs[1..], f);
      ThreadHeaderExtend(fs[0].id, fs[0].topic, FoundRecords(fs[1..]), ThreadHeader(f.id, f.topic, []));
    }
  }

  lemma ThreadHeaderExtend(id: u64, topic: bytes, rest: bytes, more: bytes)
    ensures ThreadHeader(id, topic, rest + more) == ThreadHeader(id, topic, rest) + more
  {
    assert topic + (rest + more) == (topic + rest) + more;
    assert TPC + ((topic + rest) + more) == (TPC + (topic + rest)) + more;
    var a := TPC + (topic + rest);
    assert U64(|topic|) + (a + more) == (U64(|topic|) + a) + more;
    var b := U64(|topic|) + a;
    assert TPCSZ + (b + more) == (TPCSZ + b) + more;
    var c := TPCSZ + b;
    assert U64(id) + (c + more) == (U64(id) + c) + more;
  }

  // ------------------------------------------------ what the client reads in a reply

  datatype Parsed<+T> = Got(value: T) | BadReply | Overrun
  {
    predicate IsFailure() {
      !Got?
    }

    function PropagateFailure<U>(): Parsed<U>
      requires IsFailure()
    {
      if BadReply? then BadReply else Overrun
    }

    function Extract(): T
      requires !IsFailure()
    {
      value
    }
  }

  function ReadHeader(d: bytes): Parsed<(u64, bytes, bytes)> {
    match Eat(THRID, d)
    case None => BadReply
    case Some(d1) =>
      if |d1| < 8 then Overrun else
      var (id, d2) := EatU64(d1).value;
      match Eat(TPCSZ, d2)
      case None => BadReply
      case Some(d3) =>
        if |d3| < 8 then Overrun else
        var (size, d4) := EatU64(d3).value;
        match Eat(TPC, d4)
        case None => BadReply
        case Some(d5) =>
          if |d5| < size then Overrun else Got((id, CStrN(d5, size), d5[size..]))
  }

  /** One message record, and the input after it. */
  function ReadRecord(d: bytes): Parsed<(bytes, u32, bytes)> {
    match Eat(MSG, d)
    case None => BadReply
    case Some(d1) =>
      if |d1| < 20 then Overrun else
      var (flag, d2) := EatU32(d1).value;
      var (serverId, d3) := EatU64(d2).value;
      var (size, d4) := EatU64(d3).value;
      if |d4| < size then Overrun else
      match Eat(MSGEND, d4[size..])
      case None => BadReply
      case Some(d5) => Got((CStrN(d4, size), flag, d5))
  }

  /** The message loop: the server's ids are dropped and the client's own counter numbers the messages. */
  function ReadMessages(d: bytes, n: nat, t: Thread): Parsed<Thread>
    decreases n
  {
    if n == 0 then Got(t) else
    match ReadRecord(d)
    case BadReply => BadReply
    case Overrun => Overrun
    case Got(r) => ReadMessages(r.2, n - 1, WithMessage(t, r.0, r.1))
  }

  function ReadGetReply(d: bytes, random: u64): Parsed<Thread> {
    match ReadHeader(d)
    case BadReply => BadReply
    case Overrun => Overrun
    case Got(h) =>
      match Eat(MSGCNT, h.2)
      case None => BadReply
      case Some(d1) =>
        if |d1| < 8 then Overrun else
        var (count, d2) := EatU64(d1).value;
        ReadMessages(d2, count, NewThread(h.1, h.0, random))
  }

  datatype Created = Created(id: u64, token: bytes)

  function ReadCreateReply(d: bytes): Parsed<Created> {
    match Eat(THRID, d)
    case None => BadReply
    case Some(d1) =>
      if |d1| < 8 then Overrun else
      var (id, d2) := EatU64(d1).value;
      match Eat(TKN, d2)
      case None => BadReply
      case Some(d3) => Got(Created(id, CStrN(d3, TOKEN_SIZE)))
  }

  /** Each turn of the loop consumes at least the 24 fixed bytes of a record. */
  function ReadFound(d: bytes, sofar: seq<Found>): Parsed<seq<Found>>
    decreases |d|
  {
    if d == [] then Got(sofar) else
    match ReadHeader(d)
    case BadReply => BadReply
    case Overrun => Overrun
    case Got(h) =>
      HeaderConsumes(d);
      ReadFound(h.2, sofar + [Found(h.0, h.1)])
  }

  function ReadFindReply(d: bytes): Parsed<seq<Found>> {
    if Eat(NFND_TEXT, d).Some? then Got([]) else ReadFound(d, [])
  }

  /** `parse_response_CMSG` and `parse_response_LIVE`. */
  function ReadStatusReply(d: bytes): Status {
    if Eat(OK_TAG, d).Some? then OK else IDAT
  }

  datatype MetaInfo = MetaInfo(
    minTopic: u64, maxTopic: u64, minMessage: u64, maxMessage: u64, threadCount: u64, version: bytes
  )

  /** A tag and the number after it. */
  function ReadField(tag: bytes, d: bytes): Parsed<(u64, bytes)> {
    match Eat(tag, d)
    case None => BadReply
    case Some(d1) => if |d1| < 8 then Overrun else Got(EatU64(d1).value)
  }

  function ReadMetaReply(d: bytes): Parsed<MetaInfo> {
    var minTopic :- ReadField(MINTPCSZ, d);
    var maxTopic :- ReadField(MAXTPCSZ, minTopic.1);
    var minMessage :- ReadField(MINMSGSZ, maxTopic.1);
    var maxMessage :- ReadField(MAXMSGSZ, minMessage.1);
    var count :- ReadField(THRN, maxMessage.1);
    var size :- ReadField(VERSZ, count.1);
    match Eat(VER, size.1)
    case None => BadReply
    case Some(d1) =>
      if |d1| < size.0 then Overrun
      else Got(MetaInfo(minTopic.0, maxTopic.0, minMessage.0, maxMessage.0, count.0, CStrN(d1, size.0)))
  }

  lemma HeaderConsumes(d: bytes)
    ensures ReadHeader(d).Got? ==> |ReadHeader(d).value.2| + 29 <= |d|
  {}

  // ----------------------------------------------------------------- round trips

  lemma ReadsHeader(id: u64, topic: bytes, rest: bytes)
    requires NulFree(topic) && |topic| < TWO_64
    ensures ReadHeader(ThreadHeader(id, topic, rest)) == Got((id, topic, rest))
  {
    var a := TPC + (topic + rest);
    EatTag(THRID, U64(id) + (TPCSZ + (U64(|topic|) + a)));
    EatU64Prefix(id, TPCSZ + (U64(|topic|) + a));
    EatTag(TPCSZ, U64(|topic|) + a);
    EatU64Prefix(|topic|, a);
    EatTag(TPC, topic + rest);
    CStrNPrefix(topic, rest);
    assert (topic + rest)[|topic|..] == rest;
  }

  /** The flag the client reads from the slot: the low byte, then the three bytes nobody wrote. */
  function WireFlag(flag: u32, pad: Padding): u32 {
    ReadU32([flag % 256] + pad)
  }

  lemma ReadsRecord(m: Message, pad: Padding, rest: bytes)
    requires NulFree(m.text) && |m.text| < TWO_64
    ensures ReadRecord(Record(m, pad) + rest) == Got((m.text, WireFlag(m.byAuthor, pad), rest))
  {
    var end := MSGEND + rest;
    var slot := [m.byAuthor % 256] + pad;
    var d4 := m.text + end;
    var d3 := U64(|m.text|) + d4;
    var d2 := U64(m.id) + d3;
    var d1 := slot + d2;
    assert Record(m, pad) + rest == MSG + d1 by {
      assert (m.text + MSGEND) + rest == d4;
      assert (U64(|m.text|) + (m.text + MSGEND)) + rest == U64(|m.text|) + ((m.text + MSGEND) + rest);
      var x := U64(|m.text|) + (m.text + MSGEND);
      assert (U64(m.id) + x) + rest == U64(m.id) + (x + rest);
      var y := U64(m.id) + x;
      assert (slot + y) + rest == slot + (y + rest);
      assert (MSG + (slot + y)) + rest == MSG + ((slot + y) + rest);
    }
    EatTag(MSG, d1);
    assert d1[..4] == slot && d1[4..] == d2;
    EatU64Prefix(m.id, d3);
    EatU64Prefix(|m.text|, d4);
    CStrNPrefix(m.text, end);
    assert d4[|m.text|..] == end;
    EatTag(MSGEND, rest);
  }

  /** The messages a client rebuilds: same texts in order, its own numbering, flags read from the slots. */
  function Rebuilt(ms: seq<Message>, pads: seq<Padding>, next: u64): seq<Message> {
    if ms == [] then [] else
    [Message(next, ms[0].text, WireFlag(ms[0].byAuthor, HeadPad(pads)))]
      + Rebuilt(ms[1..], TailPads(pads), (next + 1) % TWO_64)
  }

  lemma ReadMessagesStep(d: bytes, text: bytes, flag: u32, rest: bytes, n: nat, t: Thread)
    requires n > 0 && ReadRecord(d) == Got((text, flag, rest))
    ensures ReadMessages(d, n, t) == ReadMessages(rest, n - 1, WithMessage(t, text, flag))
  {}

  function RebuiltThread(t: Thread, ms: seq<Message>, pads: seq<Padding>): Thread {
    t.(next := (t.next + |ms|) % TWO_64, messages := t.messages + Rebuilt(ms, pads, t.next))
  }

  lemma RebuiltThreadStep(t: Thread, ms: seq<Message>, pads: seq<Padding>)
    requires ms != [] && TextFits(ms[0].text)
    ensures RebuiltThread(t, ms, pads)
         == RebuiltThread(WithMessage(t, ms[0].text, WireFlag(ms[0].byAuthor, HeadPad(pads))), ms[1..], TailPads(pads))
  {
    hide WireFlag, HeadPad, TailPads;
    var u := WithMessage(t, ms[0].text, WireFlag(ms[0].byAuthor, HeadPad(pads)));
    var rest := Rebuilt(ms[1..], TailPads(pads), u.next);
    assert t.messages + Rebuilt(ms, pads, t.next) == u.messages + rest;
  }

  lemma {:induction false} ReadsRecords(ms: seq<Message>, pads: seq<Padding>, t: Thread)
    requires forall k :: 0 <= k < |ms| ==> GoodMessage(ms[k])
    ensures ReadMessages(Records(ms, pads), |ms|, t) == Got(RebuiltThread(t, ms, pads))
    decreases |ms|
  {
    if ms == [] {
      assert t.messages + [] == t.messages;
    } else {
      var m, pad, rest, pads' := ms[0], HeadPad(pads), ms[1..], TailPads(pads);
      var flag := WireFlag(m.byAuthor, pad);
      assert GoodMessage(m);
      ReadsRecord(m, pad, Records(rest, pads'));
      ReadMessagesStep(Records(ms, pads), m.text, flag, Records(rest, pads'), |ms|, t);
      ReadsRecords(rest, pads', WithMessage(t, m.text, flag));
      RebuiltThreadStep(t, ms, pads);
    }
  }

  lemma CountOn(next: u64, k: nat)
    ensures ((next + 1) % TWO_64 + k) % TWO_64 == (next + (k + 1)) % TWO_64
  {}

  lemma {:induction false} RebuiltLength(ms: seq<Message>, pads: seq<Padding>, next: u64)
    ensures |Rebuilt(ms, pads, next)| == |ms|
    decreases |ms|
  {
    if ms != [] {
      RebuiltLength(ms[1..], TailPads(pads), (next + 1) % TWO_64);
    }
  }

  function PadAt(pads: seq<Padding>, k: nat): Padding {
    if k < |pads| then pads[k] else [0, 0, 0]
  }

  lemma {:induction false} RebuiltAt(ms: seq<Message>, pads: seq<Padding>, next: u64, k: nat)
    requires k < |ms|
    ensures |Rebuilt(ms, pads, next)| == |ms|
    ensures Rebuilt(ms, pads, next)[k]
         == Message((next + k) % TWO_64, ms[k].text, WireFlag(ms[k].byAuthor, PadAt(pads, k)))
    decreases |ms|
  {
    RebuiltLength(ms, pads, next);
    if k > 0 {
      var pads', next' := TailPads(pads), (next + 1) % TWO_64;
      RebuiltAt(ms[1..], pads', next', k - 1);
      CountOn(next, k - 1);
      assert PadAt(pads', k - 1) == PadAt(pads, k);
      assert Rebuilt(ms, pads, next)[1..] == Rebuilt(ms[1..], pads', next');
    }
  }

  /** A client-side flag is true exactly when the server's is, or a byte nobody wrote is not zero. */
  lemma FlagTruth(flag: u32, pad: Padding)
    requires flag in {FALSE, TRUE, MINUS_NPTR}
    ensures WireFlag(flag, pad) != FALSE <==> (flag != FALSE || pad != [0, 0, 0])
  {
    var slot := [flag % 256] + pad;
    var v := FromLe(slot);
    assert slot[1..] == pad;
    assert pad == [pad[0], pad[1], pad[2]];
    var p1, p2 := pad[1..], pad[1..][1..];
    assert FromLe(p2) == p2[0] + 256 * FromLe([]) by { assert p2[1..] == []; }
    assert FromLe(p1) == p1[0] + 256 * FromLe(p2);
    assert FromLe(pad) == pad[0] + 256 * FromLe(p1);
    assert v == flag % 256 + 256 * FromLe(pad);
    assert ReadU32(slot) == v;
  }

  lemma ReadGetReplySteps(d: bytes, id: u64, topic: bytes, rest: bytes, count: u64, records: bytes, random: u64)
    requires ReadHeader(d) == Got((id, topic, rest))
    requires rest == MSGCNT + (U64(count) + records)
    ensures ReadGetReply(d, random) == ReadMessages(records, count, NewThread(topic, id, random))
  {
    EatTag(MSGCNT, U64(count) + records);
    EatU64Prefix(count, records);
  }

  /** What a client holds after reading a reply about `t`: its own numbering from `base`, no author. */
  function ClientCopy(t: Thread, pads: seq<Padding>, base: u64): Thread {
    RebuiltThread(Thread(t.id, base, base, t.topic, [], None), t.messages, pads)
  }

  /** GTHR round trip: any well-formed thread, any padding, any client-side random base. */
  lemma GetReplyRoundTrip(t: Thread, pads: seq<Padding>, random: u64)
    requires NulFree(t.topic) && |t.topic| < TWO_64 && GoodHistory(t)
    ensures ReadGetReply(GetReply(t, pads), random) == Got(ClientCopy(t, pads, random % RANDOM_IDS))
  {
    CountIsLength(t);
    var n, records := MessageCount(t), Records(t.messages, pads);
    var rest := MSGCNT + (U64(n) + records);
    ReadsHeader(t.id, t.topic, rest);
    ReadGetReplySteps(GetReply(t, pads), t.id, t.topic, rest, n, records, random);
    CStrOfNulFree(t.topic);
    ReadsRecords(t.messages, pads, NewThread(t.topic, t.id, random));
  }

  lemma WrapCount(base: u64, n: nat)
    requires n < TWO_64
    ensures ((base + n) % TWO_64 - base) % TWO_64 == n
  {}

  lemma ClientCopyShape(t: Thread, pads: seq<Padding>, base: u64)
    requires GoodHistory(t)
    ensures var c := ClientCopy(t, pads, base);
      c.id == t.id && c.topic == t.topic && |c.messages| == |t.messages| == MessageCount(c)
  {
    CountIsLength(t);
    RebuiltLength(t.messages, pads, base);
    WrapCount(base, |t.messages|);
  }

  /** The k-th message of the copy: same text, an id moved by one constant, the flag slot as a number. */
  lemma ClientCopyAt(t: Thread, pads: seq<Padding>, base: u64, k: nat)
    requires GoodHistory(t) && k < |t.messages|
    ensures |ClientCopy(t, pads, base).messages| == |t.messages|
    ensures var m, c := t.messages[k], ClientCopy(t, pads, base).messages[k];
      && c.text == m.text
      && c.id == (m.id + (base - t.first)) % TWO_64
      && c.byAuthor == WireFlag(m.byAuthor, PadAt(pads, k))
  {
    var ms := t.messages;
    assert ClientCopy(t, pads, base).messages == Rebuilt(ms, pads, base);
    RebuiltAt(ms, pads, base, k);
    assert ms[k].id == t.first + k;
  }

  lemma CreateReplyRoundTrip(id: u64, token: bytes, tail: bytes)
    requires GoodToken(token)
    ensures ReadCreateReply(CreateReply(id, token, tail)) == Got(Created(id, token))
  {
    EatTag(THRID, U64(id) + (TKN + (token + tail)));
    EatU64Prefix(id, TKN + (token + tail));
    EatTag(TKN, token + tail);
    CStrNPrefix(token, tail);
  }

  lemma ReadsField(tag: bytes, n: u64, rest: bytes)
    ensures ReadField(tag, Field(tag, n, rest)) == Got((n, rest))
  {
    EatTag(tag, U64(n) + rest);
    EatU64Prefix(n, rest);
  }

  /** META round trip: the bounds, the number of threads and the version are read as they were written. */
  lemma MetaReplyRoundTrip(threadCount: u64)
    ensures ReadMetaReply(MetaReply(threadCount)) == Got(MetaInfo(3, 64, 3, 512, threadCount, VERSION))
  {
    var f := VER + VERSION;
    EatTag(VER, VERSION);
    CStrNPrefix(VERSION, []);
    assert VERSION + [] == VERSION;
    hide Field, Eat, CStrN, ReadField, ReadMetaReply;
    var e := Field(VERSZ, |VERSION|, f);
    var d := Field(THRN, threadCount, e);
    var c := Field(MAXMSGSZ, MAX_MESSAGE_SIZE, d);
    var b := Field(MINMSGSZ, MIN_MESSAGE_SIZE, c);
    var a := Field(MAXTPCSZ, MAX_TOPIC_SIZE, b);
    ReadsField(MINTPCSZ, MIN_TOPIC_SIZE, a);
    ReadsField(MAXTPCSZ, MAX_TOPIC_SIZE, b);
    ReadsField(MINMSGSZ, MIN_MESSAGE_SIZE, c);
    ReadsField(MAXMSGSZ, MAX_MESSAGE_SIZE, d);
    ReadsField(THRN, threadCount, e);
    ReadsField(VERSZ, |VERSION|, f);
    MetaSteps(MetaReply(threadCount), a, b, c, d, e, f, threadCount);
  }

  lemma MetaSteps(d: bytes, d1: bytes, d2: bytes, d3: bytes, d4: bytes, d5: bytes, d6: bytes, count: u64)
    requires ReadField(MINTPCSZ, d) == Got((3, d1)) && ReadField(MAXTPCSZ, d1) == Got((64, d2))
    requires ReadField(MINMSGSZ, d2) == Got((3, d3)) && ReadField(MAXMSGSZ, d3) == Got((512, d4))
    requires ReadField(THRN, d4) == Got((count, d5)) && ReadField(VERSZ, d5) == Got((|VERSION|, d6))
    requires Eat(VER, d6) == Some(VERSION) && CStrN(VERSION, |VERSION|) == VERSION
    ensures ReadMetaReply(d) == Got(MetaInfo(3, 64, 3, 512, count, VERSION))
  {
    hide ReadField, CStrN, Eat;
  }

  lemma ReadFoundStep(d: bytes, id: u64, topic: bytes, rest: bytes, sofar: seq<Found>)
    requires d != [] && ReadHeader(d) == Got((id, topic, rest))
    ensures ReadFound(d, sofar) == ReadFound(rest, sofar + [Found(id, topic)])
  {}

  lemma FoundStep(f: Found, rest: bytes, sofar: seq<Found>)
    requires NulFree(f.topic) && |f.topic| < TWO_64
    ensures ReadFound(ThreadHeader(f.id, f.topic, rest), sofar) == ReadFound(rest, sofar + [f])
  {
    ReadsHeader(f.id, f.topic, rest);
    ReadFoundStep(ThreadHeader(f.id, f.topic, rest), f.id, f.topic, rest, sofar);
  }

  lemma {:induction false} ReadsFound(fs: seq<Found>, sofar: seq<Found>)
    requires forall k :: 0 <= k < |fs| ==> NulFree(fs[k].topic) && |fs[k].topic| < TWO_64
    ensures ReadFound(FoundRecords(fs), sofar) == Got(sofar + fs)
    decreases |fs|
  {
    if fs == [] {
      assert sofar + fs == sofar;
    } else {
      var f, sofar', rest := fs[0], sofar + [fs[0]], fs[1..];
      assert sofar + fs == sofar' + rest;
      FoundStep(f, FoundRecords(rest), sofar);
      ReadsFound(rest, sofar');
    }
  }

  lemma FoundRecordsTag(fs: seq<Found>)
    requires fs != []
    ensures FoundRecords(fs) != [] && FoundRecords(fs)[0] == 84
  {
    var rest := U64(fs[0].id) + (TPCSZ + (U64(|fs[0].topic|) + (TPC + (fs[0].topic + FoundRecords(fs[1..])))));
    assert FoundRecords(fs) == THRID + rest;
  }

  lemma NotTheNfndText(d: bytes)
    requires d != [] && d[0] == 84
    ensures d != NFND_TEXT && ReadFindReply(d) == ReadFound(d, [])
  {}

  /** FTHR round trip; the reply is the bare NFND text exactly when nothing was found. */
  lemma FindReplyRoundTrip(fs: seq<Found>)
    requires forall k :: 0 <= k < |fs| ==> NulFree(fs[k].topic) && |fs[k].topic| < TWO_64
    ensures ReadFindReply(FindReply(fs)) == Got(fs)
    ensures FindReply(fs) == NFND_TEXT <==> fs == []
  {
    if fs == [] {
      EatTag(NFND_TEXT, []);
      assert NFND_TEXT + [] == NFND_TEXT;
    } else {
      ReadsFound(fs, []);
      assert [] + fs == fs;
      FoundRecordsTag(fs);
      NotTheNfndText(FoundRecords(fs));
    }
  }
}
