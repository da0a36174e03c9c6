/** The reply builders of server/query.c: a moving pointer over a buffer that doubles. */
module ServerReplies {
  import opened Bytes
  import opened Forum
  import opened Wire
  import opened Buffers

  /** THRID, id, TPCSZ, size, TPC, topic written in order are a header with nothing after it. */
  lemma HeaderParts(id: u64, topic: bytes)
    ensures ThreadHeader(id, topic, [])
         == ((((THRID + U64(id)) + TPCSZ) + U64(|topic|)) + TPC) + topic
  {
    assert topic + [] == topic;
    var a, b, c, d := TPC + topic, U64(|topic|), TPCSZ, U64(id);
    assert (((THRID + d) + c) + b) + a == THRID + (d + (c + (b + a)));
    assert ((((THRID + d) + c) + b) + TPC) + topic == (((THRID + d) + c) + b) + a;
  }

  method PutHeader(buf: array<byte>, at: nat, id: u64, topic: bytes) returns (next: nat)
    requires at + 29 + |topic| <= buf.Length
    modifies buf
    ensures next == at + 29 + |topic|
    ensures buf[..next] == old(buf[..at]) + ThreadHeader(id, topic, [])
  {
    ghost var before := buf[..at];
    ghost var x := THRID;
    assert buf[..at] == before + [] && [] + x == x;
    next := Put(buf, at, THRID, before, []);
    next := Put(buf, next, U64(id), before, x);
    x := x + U64(id);
    next := Put(buf, next, TPCSZ, before, x);
    x := x + TPCSZ;
    next := Put(buf, next, U64(|topic|), before, x);
    x := x + U64(|topic|);
    next := Put(buf, next, TPC, before, x);
    x := x + TPC;
    next := Put(buf, next, topic, before, x);
    HeaderParts(id, topic);
  }

  lemma RecordParts(m: Message, pad: Padding)
    ensures Record(m, pad)
         == ((((MSG + ([m.byAuthor % 256] + pad)) + U64(m.id)) + U64(|m.text|)) + m.text) + MSGEND
  {
    var a, b, c, d := m.text + MSGEND, U64(|m.text|), U64(m.id), [m.byAuthor % 256] + pad;
    assert ((MSG + d) + c) + (b + a) == MSG + (d + (c + (b + a)));
    assert (((MSG + d) + c) + b) + a == ((MSG + d) + c) + (b + a);
    assert ((((MSG + d) + c) + b) + m.text) + MSGEND == (((MSG + d) + c) + b) + a;
  }

  /** The flag slot is four bytes wide but only its first byte is stored. */
  method PutFlag(buf: array<byte>, at: nat, flag: u32, ghost before: bytes, ghost sofar: bytes)
    returns (next: nat, ghost pad: Padding)
    requires at + 4 <= buf.Length && buf[..at] == before + sofar
    modifies buf
    ensures next == at + 4
    ensures buf[..next] == before + (sofar + ([flag % 256] + pad))
    ensures pad == old(buf[at + 1..at + 4]) && buf[at + 1..] == old(buf[at + 1..])
  {
    pad := buf[at + 1..at + 4];
    buf[at] := flag % 256;
    next := at + 4;
    assert buf[..next] == buf[..at] + ([buf[at]] + buf[at + 1..next]);
    assert (before + sofar) + ([flag % 256] + pad) == before + (sofar + ([flag % 256] + pad));
  }

  method PutRecord(buf: array<byte>, at: nat, m: Message) returns (next: nat, ghost pad: Padding)
    requires at + 29 + |m.text| <= buf.Length
    modifies buf
    ensures next == at + 29 + |m.text|
    ensures buf[..next] == old(buf[..at]) + Record(m, pad)
  {
    ghost var before := buf[..at];
    ghost var x := MSG;
    assert buf[..at] == before + [] && [] + x == x;
    next := Put(buf, at, MSG, before, []);
    next, pad := PutFlag(buf, next, m.byAuthor, before, x);
    x := x + ([m.byAuthor % 256] + pad);
    next := Put(buf, next, U64(m.id), before, x);
    x := x + U64(m.id);
    next := Put(buf, next, U64(|m.text|), before, x);
    x := x + U64(|m.text|);
    next := Put(buf, next, m.text, before, x);
    x := x + m.text;
    next := Put(buf, next, MSGEND, before, x);
    RecordParts(m, pad);
  }

  function GetReplyHead(t: Thread): bytes {
    ThreadHeader(t.id, t.topic, MSGCNT + U64(MessageCount(t)))
  }

  lemma GetReplySplit(t: Thread, pads: seq<Padding>)
    ensures GetReply(t, pads) == GetReplyHead(t) + Records(t.messages, pads)
  {
    var n, rs := U64(MessageCount(t)), Records(t.messages, pads);
    assert MSGCNT + (n + rs) == (MSGCNT + n) + rs;
    ThreadHeaderExtend(t.id, t.topic, MSGCNT + n, rs);
  }

  method PutGetHead(buf: array<byte>, t: Thread) returns (at: nat)
    requires 43 + |t.topic| <= buf.Length
    modifies buf
    ensures at == 43 + |t.topic| && buf[..at] == GetReplyHead(t)
  {
    at := PutHeader(buf, 0, t.id, t.topic);
    ghost var head := ThreadHeader(t.id, t.topic, []);
    assert buf[..at] == head + [];
    at := Put(buf, at, MSGCNT, head, []);
    assert [] + MSGCNT == MSGCNT;
    at := Put(buf, at, U64(MessageCount(t)), head, MSGCNT);
    GetHeadParts(t);
  }

  lemma GetHeadParts(t: Thread)
    ensures ThreadHeader(t.id, t.topic, []) + (MSGCNT + U64(MessageCount(t))) == GetReplyHead(t)
  {
    var count := MSGCNT + U64(MessageCount(t));
    ThreadHeaderExtend(t.id, t.topic, [], count);
    assert [] + count == count;
  }

  /** GTHR: the reply is the concatenation of header and records, whatever the slots' unwritten bytes. */
  method BuildGetReply(t: Thread) returns (buf: array<byte>, size: nat, ghost pads: seq<Padding>)
    ensures fresh(buf) && size <= buf.Length && |pads| == |t.messages|
    ensures buf[..size] == GetReply(t, pads)
  {
    var chunk := (5 + 8 + 5 + 8 + 3 + |t.topic| + 6 + 8) + 1024;
    buf := Malloc(chunk + 1);
    size := PutGetHead(buf, t);
    pads := [];
    var k := 0;
    ghost var head := GetReplyHead(t);
    assert head + Records(t.messages[..0], []) == head;
    while k < |t.messages|
      invariant 0 <= k <= |t.messages| && |pads| == k
      invariant 0 < chunk <= buf.Length <= chunk + 1 && size <= chunk && fresh(buf)
      invariant buf[..size] == head + Records(t.messages[..k], pads)
    {
      var m := t.messages[k];
      buf, chunk := Grow(buf, chunk, size, 3 + 4 + 8 + 8 + |m.text| + 6);
      ghost var pad: Padding;
      size, pad := PutRecord(buf, size, m);
      RecordsGrow(head, t.messages, pads, k, pad);
      pads := pads + [pad];
      k := k + 1;
    }
    assert t.messages[..k] == t.messages;
    GetReplySplit(t, pads);
  }

  lemma RecordsGrow(head: bytes, ms: seq<Message>, pads: seq<Padding>, k: nat, pad: Padding)
    requires k < |ms| && |pads| == k
    ensures (head + Records(ms[..k], pads)) + Record(ms[k], pad) == head + Records(ms[..k + 1], pads + [pad])
  {
    var prefix := ms[..k];
    assert ms[..k + 1] == prefix + [ms[k]];
    RecordsSnoc(prefix, pads, ms[k], pad);
    Assoc(head, Records(prefix, pads), Record(ms[k], pad));
  }

  /** FTHR: NFND for no match, otherwise the concatenation of the matches' headers. */
  method BuildFindReply(fs: seq<Found>) returns (buf: array<byte>, size: nat)
    ensures fresh(buf) && size <= buf.Length
    ensures buf[..size] == FindReply(fs)
  {
    var chunk := 1024;
    buf := Malloc(chunk + 1);
    size := 0;
    if fs == [] {
      size := Put(buf, 0, NFND_TEXT, [], []);
      assert [] + ([] + NFND_TEXT) == NFND_TEXT;
      return;
    }
    var k := 0;
    while k < |fs|
      invariant 0 <= k <= |fs|
      invariant 0 < chunk <= buf.Length <= chunk + 1 && size <= chunk && fresh(buf)
      invariant buf[..size] == FoundRecords(fs[..k])
    {
      var f := fs[k];
      buf, chunk := Grow(buf, chunk, size, 5 + 8 + 5 + 8 + 3 + |f.topic|);
      size := PutHeader(buf, size, f.id, f.topic);
      FoundRecordsSnoc(fs[..k], f);
      assert fs[..k + 1] == fs[..k] + [f];
      k := k + 1;
    }
    assert fs[..k] == fs;
  }

  lemma CreateParts(id: u64, token: bytes, tail: bytes)
    ensures (((THRID + U64(id)) + TKN) + token) + tail == CreateReply(id, token, tail)
  {
    var a, b := U64(id), token + tail;
    Assoc((THRID + a) + TKN, token, tail);
    Assoc(THRID + a, TKN, b);
    Assoc(THRID, a, TKN + b);
  }

  /** CTHR: the declared size is that of "OKTHRID", so two trailing bytes are never written. */
  method BuildCreateReply(id: u64, token: bytes) returns (buf: array<byte>, size: nat, ghost tail: bytes)
    requires |token| == TOKEN_SIZE
    ensures fresh(buf) && size <= buf.Length
    ensures |tail| == 2 && buf[..size] == CreateReply(id, token, tail)
  {
    size := 7 + 8 + 3 + TOKEN_SIZE;
    buf := Malloc(size + 1);
    ghost var x := THRID;
    assert [] + x == x;
    var at := Put(buf, 0, THRID, [], []);
    at := Put(buf, at, U64(id), [], x);
    x := x + U64(id);
    at := Put(buf, at, TKN, [], x);
    x := x + TKN;
    at := Put(buf, at, token, [], x);
    x := x + token;
    tail := buf[at..size];
    assert buf[..at] == x;
    assert buf[..size] == buf[..at] + tail;
    CreateParts(id, token, tail);
  }

  lemma FieldMoves(x: bytes, tag: bytes, n: nat, rest: bytes)
    ensures x + Field(tag, n, rest) == (x + (tag + U64(n))) + rest
  {
    Assoc(tag, U64(n), rest);
    Assoc(x, tag + U64(n), rest);
  }

  /** One field goes from what is still to be written to what is written. */
  method PutField(buf: array<byte>, at: nat, tag: bytes, n: nat, ghost rest: bytes, ghost whole: bytes)
    returns (next: nat)
    requires at + |tag| + 8 <= buf.Length && buf[..at] + Field(tag, n, rest) == whole
    modifies buf
    ensures next == at + |tag| + 8 && buf[..next] + rest == whole
  {
    ghost var before := buf[..at];
    FieldMoves(before, tag, n, rest);
    assert before + [] == before && [] + tag == tag;
    next := Put(buf, at, tag, before, []);
    next := Put(buf, next, U64(n), before, tag);
  }

  /** META, in a buffer of fixed size that it fits. */
  method BuildMetaReply(threadCount: nat) returns (buf: array<byte>, size: nat)
    ensures fresh(buf) && size == 111 <= buf.Length
    ensures buf[..size] == MetaReply(threadCount)
  {
    buf := Malloc(128);
    hide Field;
    ghost var whole, last := MetaReply(threadCount), VER + VERSION;
    ghost var e := Field(VERSZ, |VERSION|, last);
    ghost var d := Field(THRN, threadCount, e);
    ghost var c := Field(MAXMSGSZ, MAX_MESSAGE_SIZE, d);
    ghost var b := Field(MINMSGSZ, MIN_MESSAGE_SIZE, c);
    ghost var a := Field(MAXTPCSZ, MAX_TOPIC_SIZE, b);
    assert buf[..0] + whole == whole;
    var at := PutField(buf, 0, MINTPCSZ, MIN_TOPIC_SIZE, a, whole);
    at := PutField(buf, at, MAXTPCSZ, MAX_TOPIC_SIZE, b, whole);
    at := PutField(buf, at, MINMSGSZ, MIN_MESSAGE_SIZE, c, whole);
    at := PutField(buf, at, MAXMSGSZ, MAX_MESSAGE_SIZE, d, whole);
    at := PutField(buf, at, THRN, threadCount, e, whole);
    at := PutField(buf, at, VERSZ, |VERSION|, last, whole);
    ghost var head := buf[..at];
    assert head == head + [] && [] + VER == VER;
    at := Put(buf, at, VER, head, []);
    size := Put(buf, at, VERSION, head, VER);
  }
}
