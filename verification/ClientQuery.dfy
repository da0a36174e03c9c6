/** The client half of the protocol (client/query.c): request generators and reply parsers. */
module ClientQuery {
  import opened Bytes
  import opened Forum
  import opened Wire
  import opened Buffers

  /** `calloc`. */
  method Calloc(size: nat) returns (buf: array<byte>)
    ensures fresh(buf) && buf.Length == size
  {
    buf := new byte[size](_ => 0);
  }

  // ------------------------------------------------------------------- generators

  lemma SizedFieldParts(cmd: bytes, sizeTag: bytes, size: bytes, tag: bytes, text: bytes)
    ensures (((cmd + sizeTag) + size) + tag) + text == cmd + (sizeTag + (size + (tag + text)))
  {
    Assoc((cmd + sizeTag) + size, tag, text);
    Assoc(cmd + sizeTag, size, tag + text);
    Assoc(cmd, sizeTag, size + (tag + text));
  }

  /** Command, size tag, size, tag, text: the shape that CTHR and FTHR share. */
  method PutSizedField(buf: array<byte>, cmd: bytes, sizeTag: bytes, tag: bytes, text: bytes, size: nat)
    requires buf.Length == |cmd| + |sizeTag| + 8 + |tag| + size
    modifies buf
    ensures buf[..] == cmd + (sizeTag + (U64(size) + (tag + StrNCpy(text, size))))
  {
    ghost var x := cmd;
    assert [] + x == x;
    var at := Put(buf, 0, cmd, [], []);
    at := Put(buf, at, sizeTag, [], x);
    x := x + sizeTag;
    at := Put(buf, at, U64(size), [], x);
    x := x + U64(size);
    at := Put(buf, at, tag, [], x);
    x := x + tag;
    at := Put(buf, at, StrNCpy(text, size), [], x);
    SizedFieldParts(cmd, sizeTag, U64(size), tag, StrNCpy(text, size));
    assert buf[..at] == buf[..];
  }

  method GenerateCreate(topic: bytes, size: nat) returns (data: array<byte>)
    ensures fresh(data) && data[..] == CreateRequest(StrNCpy(topic, size))
  {
    data := Calloc(4 + 5 + 8 + 3 + size);
    PutSizedField(data, CTHR, TPCSZ, TPC, topic, size);
  }

  method GenerateFind(part: bytes, size: nat) returns (data: array<byte>)
    ensures fresh(data) && data[..] == FindRequest(StrNCpy(part, size))
  {
    data := Calloc(4 + 6 + 8 + 4 + size);
    PutSizedField(data, FTHR, TPCPSZ, TPCP, part, size);
  }

  method GenerateGet(id: u64) returns (data: array<byte>)
    ensures fresh(data) && data[..] == GetRequest(id)
  {
    data := Calloc(4 + 5 + 8);
    assert [] + GTHR == GTHR;
    var at := Put(data, 0, GTHR, [], []);
    at := Put(data, at, THRID, [], GTHR);
    at := Put(data, at, U64(id), [], GTHR + THRID);
    Assoc(GTHR, THRID, U64(id));
    assert data[..at] == data[..];
  }

  method GenerateMeta() returns (data: array<byte>)
    ensures fresh(data) && data[..] == META
  {
    data := Calloc(4);
    assert [] + META == META;
    var at := Put(data, 0, META, [], []);
    assert data[..at] == data[..];
  }

  lemma PostParts(id: bytes, size: bytes, text: bytes, tail: bytes)
    ensures ((((((CMSG + THRID) + id) + TXTSZ) + size) + TXT) + text) + tail
         == CMSG + (THRID + (id + (TXTSZ + (size + (TXT + (text + tail))))))
  {
    var a := ((CMSG + THRID) + id) + TXTSZ;
    Assoc(((a + size) + TXT), text, tail);
    Assoc(a + size, TXT, text + tail);
    Assoc(a, size, TXT + (text + tail));
    var b := size + (TXT + (text + tail));
    Assoc((CMSG + THRID) + id, TXTSZ, b);
    Assoc(CMSG + THRID, id, TXTSZ + b);
    Assoc(CMSG, THRID, id + (TXTSZ + b));
  }

  function CopiedToken(token: Option<bytes>): Option<bytes> {
    if token.None? then None else Some(StrNCpy(token.value, TOKEN_SIZE))
  }

  method GeneratePost(id: u64, text: bytes, size: nat, token: Option<bytes>) returns (data: array<byte>)
    ensures fresh(data) && data[..] == PostRequest(id, StrNCpy(text, size), CopiedToken(token))
  {
    var dataSize := 4 + 5 + 8 + 5 + 8 + 3 + size;
    if token.Some? {
      dataSize := dataSize + 3 + TOKEN_SIZE;
    }
    data := Calloc(dataSize);
    ghost var x := CMSG;
    assert [] + x == x;
    var at := Put(data, 0, CMSG, [], []);
    at := Put(data, at, THRID, [], x);
    x := x + THRID;
    at := Put(data, at, U64(id), [], x);
    x := x + U64(id);
    at := Put(data, at, TXTSZ, [], x);
    x := x + TXTSZ;
    at := Put(data, at, U64(size), [], x);
    x := x + U64(size);
    at := Put(data, at, TXT, [], x);
    x := x + TXT;
    at := Put(data, at, StrNCpy(text, size), [], x);
    x := x + StrNCpy(text, size);
    if token.Some? {
      at := Put(data, at, TKN, [], x);
      at := Put(data, at, StrNCpy(token.value, TOKEN_SIZE), [], x + TKN);
      Assoc(x, TKN, StrNCpy(token.value, TOKEN_SIZE));
    }
    assert data[..at] == data[..] == x + TokenField(CopiedToken(token));
    PostParts(U64(id), U64(size), StrNCpy(text, size), TokenField(CopiedToken(token)));
  }

  // ---------------------------------------------------------------------- parsers

  /** `data_ptr` is kept as the input that is left. */
  method ParseCreateReply(raw: bytes) returns (r: Parsed<Created>)
    ensures r == ReadCreateReply(raw)
  {
    var d := raw;
    if Eat(THRID, d).None? {
      return BadReply;
    }
    d := d[5..];
    if |d| < 8 {
      return Overrun;
    }
    var id := ReadU64(d[..8]);
    d := d[8..];
    if Eat(TKN, d).None? {
      return BadReply;
    }
    d := d[3..];
    r := Got(Created(id, CStrN(d, TOKEN_SIZE)));
  }

  method ParseHeader(raw: bytes) returns (r: Parsed<(u64, bytes, bytes)>)
    ensures r == ReadHeader(raw)
  {
    var d := raw;
    if Eat(THRID, d).None? {
      return BadReply;
    }
    d := d[5..];
    if |d| < 8 {
      return Overrun;
    }
    var id := ReadU64(d[..8]);
    d := d[8..];
    if Eat(TPCSZ, d).None? {
      return BadReply;
    }
    d := d[5..];
    if |d| < 8 {
      return Overrun;
    }
    var size := ReadU64(d[..8]);
    d := d[8..];
    if Eat(TPC, d).None? {
      return BadReply;
    }
    d := d[3..];
    if |d| < size {
      return Overrun;
    }
    var topic := CStrN(d, size);
    d := d[size..];
    r := Got((id, topic, d));
  }

  /** One turn of the message loop: text, flag slot, and the input after MSGEND. */
  method ParseRecord(raw: bytes) returns (r: Parsed<(bytes, u32, bytes)>)
    ensures r == ReadRecord(raw)
  {
    var d := raw;
    if Eat(MSG, d).None? {
      return BadReply;
    }
    d := d[3..];
    if |d| < 20 {
      return Overrun;
    }
    var byAuthor := ReadU32(d[..4]);
    d := d[4..];
    var serverId := ReadU64(d[..8]);
    d := d[8..];
    var size := ReadU64(d[..8]);
    d := d[8..];
    if |d| < size {
      return Overrun;
    }
    var text := CStrN(d, size);
    d := d[size..];
    if Eat(MSGEND, d).None? {
      return BadReply;
    }
    r := Got((text, byAuthor, d[6..]));
  }

  /** Reading n more messages from d onto t gives `whole`. */
  ghost predicate Continues(d: bytes, n: nat, t: Thread, whole: Parsed<Thread>) {
    ReadMessages(d, n, t) == whole
  }

  lemma ContinuesStep(d: bytes, n: nat, t: Thread, whole: Parsed<Thread>)
    requires n > 0 && Continues(d, n, t, whole)
    ensures match ReadRecord(d)
      case Got(r) => Continues(r.2, n - 1, WithMessage(t, r.0, r.1), whole)
      case BadReply => whole == BadReply
      case Overrun => whole == Overrun
  {}

  lemma ContinuesDone(d: bytes, t: Thread, whole: Parsed<Thread>)
    requires Continues(d, 0, t, whole)
    ensures whole == Got(t)
  {}

  /** The body of the message loop: take one record and give the thread its message. */
  method TakeMessage(d: bytes, t: LeThread, ghost left: nat, ghost whole: Parsed<Thread>)
    returns (status: Parsed<Status>, rest: bytes)
    requires left > 0 && Continues(d, left, t.View(), whole)
    modifies t
    ensures status.Got? ==> status == Got(OK) && Continues(rest, left - 1, t.View(), whole)
    ensures status.BadReply? ==> whole == BadReply
    ensures status.Overrun? ==> whole == Overrun
  {
    ContinuesStep(d, left, t.View(), whole);
    var r := ParseRecord(d);
    match r
    case BadReply => return BadReply, d;
    case Overrun => return Overrun, d;
    case Got(record) =>
      ghost var next := WithMessage(t.View(), record.0, record.1);
      rest := record.2;
      assert Continues(rest, left - 1, next, whole);
      var _ := t.CreateMessage(record.0, record.1);
      assert t.View() == next;
      status := Got(OK);
  }

  /** The thread under construction is mutated message by message. */
  method ParseMessages(raw: bytes, count: nat, t: LeThread) returns (status: Parsed<Status>)
    modifies t
    ensures match ReadMessages(raw, count, old(t.View()))
      case Got(u) => status == Got(OK) && t.View() == u
      case BadReply => status == BadReply
      case Overrun => status == Overrun
  {
    var d := raw;
    ghost var whole := ReadMessages(raw, count, t.View());
    ghost var left := count;
    assert Continues(d, left, t.View(), whole);
    hide Continues, ReadMessages;
    var i := 0;
    while i < count
      invariant 0 <= i <= count && left == count - i
      invariant Continues(d, left, t.View(), whole)
    {
      status, d := TakeMessage(d, t, left, whole);
      if !status.Got? {
        return;
      }
      i := i + 1;
      left := left - 1;
    }
    ContinuesDone(d, t.View(), whole);
    status := Got(OK);
  }

  /** Any error drops the thread that was being built. */
  method ParseGetReply(raw: bytes, random: u64) returns (status: Parsed<Status>, thread: LeThread?)
    ensures match ReadGetReply(raw, random)
      case Got(t) => status == Got(OK) && thread != null && fresh(thread) && thread.View() == t
      case BadReply => status == BadReply && thread == null
      case Overrun => status == Overrun && thread == null
  {
    thread := null;
    var h := ParseHeader(raw);
    if h.BadReply? {
      return BadReply, null;
    }
    if h.Overrun? {
      return Overrun, null;
    }
    var d := h.value.2;
    var t := new LeThread(h.value.1, h.value.0, random);
    if Eat(MSGCNT, d).None? {
      return BadReply, null;
    }
    d := d[6..];
    if |d| < 8 {
      return Overrun, null;
    }
    var count := ReadU64(d[..8]);
    status := ParseMessages(d[8..], count, t);
    thread := if status.Got? then t else null;
  }

  method ParseFindReply(raw: bytes) returns (r: Parsed<seq<Found>>)
    ensures r == ReadFindReply(raw)
  {
    if Eat(NFND_TEXT, raw).Some? {
      return Got([]);
    }
    var d := raw;
    var found: seq<Found> := [];
    while d != []
      invariant ReadFound(d, found) == ReadFindReply(raw)
      decreases |d|
    {
      var h := ParseHeader(d);
      if h.BadReply? {
        return BadReply;
      }
      if h.Overrun? {
        return Overrun;
      }
      HeaderConsumes(d);
      found := found + [Found(h.value.0, h.value.1)];
      d := h.value.2;
    }
    r := Got(found);
  }

  /** CMSG and LIVE: all but a leading OK is an error. */
  method ParseStatusReply(raw: bytes) returns (status: Status)
    ensures status == ReadStatusReply(raw)
  {
    if Eat(OK_TAG, raw).None? {
      return IDAT;
    }
    status := OK;
  }

  method ParseMetaReply(raw: bytes) returns (r: Parsed<MetaInfo>)
    ensures r == ReadMetaReply(raw)
  {
    hide ReadField;
    var minTopic :- ReadField(MINTPCSZ, raw);
    var maxTopic :- ReadField(MAXTPCSZ, minTopic.1);
    var minMessage :- ReadField(MINMSGSZ, maxTopic.1);
    var maxMessage :- ReadField(MAXMSGSZ, minMessage.1);
    var count :- ReadField(THRN, maxMessage.1);
    var size :- ReadField(VERSZ, count.1);
    if Eat(VER, size.1).None? {
      return BadReply;
    }
    var d := size.1[3..];
    if |d| < size.0 {
      return Overrun;
    }
    r := Got(MetaInfo(minTopic.0, maxTopic.0, minMessage.0, maxMessage.0, count.0, CStrN(d, size.0)));
  }
}
