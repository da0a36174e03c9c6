/** Replies read by the layouts of docs/dev/api.md, independently of the client: the server's own ids are kept. */
module ApiReplies {
  import opened Bytes
  import opened Forum
  import opened Wire
  import opened Api

  /** A thread as the GTHR reply lists it: every message with the server's own id. */
  datatype Listing = Listing(id: u64, topic: bytes, messages: seq<Message>)

  function ReadText(tag: bytes, d: bytes, size: nat): Parsed<(bytes, bytes)> {
    match Eat(tag, d)
    case None => BadReply
    case Some(d1) => if |d1| < size then Overrun else Got((d1[..size], d1[size..]))
  }

  /** One record, with a flag slot of this many bytes. */
  function ReadPosted(d: bytes, slot: nat): Parsed<(Message, bytes)>
    requires slot > 0
  {
    match Eat(Ascii("MSG"), d)
    case None => BadReply
    case Some(d1) =>
      if |d1| < slot + 16 then Overrun else
      var (id, d2) := EatU64(d1[slot..]).value;
      var (size, d3) := EatU64(d2).value;
      var text :- ReadText([], d3, size);
      match Eat(Ascii("MSGEND"), text.1)
      case None => BadReply
      case Some(rest) => Got((Message(id, text.0, d1[0]), rest))
  }

  function ReadHistory(d: bytes, n: nat, slot: nat): Parsed<seq<Message>>
    requires slot > 0
    decreases n
  {
    if n == 0 then Got([]) else
    var first :- ReadPosted(d, slot);
    var others :- ReadHistory(first.1, n - 1, slot);
    Got([first.0] + others)
  }

  function ReadListing(d: bytes, slot: nat): Parsed<Listing>
    requires slot > 0
  {
    var id :- ReadField(Ascii("THRID"), d);
    var size :- ReadField(Ascii("TPCSZ"), id.1);
    var topic :- ReadText(Ascii("TPC"), size.1, size.0);
    var count :- ReadField(Ascii("MSGCNT"), topic.1);
    var messages :- ReadHistory(count.1, count.0, slot);
    Got(Listing(id.0, topic.0, messages))
  }

  /** The messages with their flags as one byte. */
  function AsListed(ms: seq<Message>): seq<Message> {
    seq(|ms|, k requires 0 <= k < |ms| => ms[k].(byAuthor := ms[k].byAuthor % 256))
  }

  lemma AsListedCons(ms: seq<Message>)
    requires ms != []
    ensures AsListed(ms) == [ms[0].(byAuthor := ms[0].byAuthor % 256)] + AsListed(ms[1..])
  {}

  lemma RecordFollowed(m: Message, pad: Padding, rest: bytes)
    ensures Record(m, pad) + rest
         == MSG + (([m.byAuthor % 256] + pad) + (U64(m.id) + (U64(|m.text|) + (m.text + (MSGEND + rest)))))
  {
    var a, b, c, d := m.text + MSGEND, U64(|m.text|), U64(m.id), [m.byAuthor % 256] + pad;
    Assoc(m.text, MSGEND, rest);
    Assoc(b, a, rest);
    Assoc(c, b + a, rest);
    Assoc(d, c + (b + a), rest);
    Assoc(MSG, d + (c + (b + a)), rest);
  }

  lemma ReadsPosted(m: Message, pad: Padding, rest: bytes)
    requires |m.text| < TWO_64
    ensures ReadPosted(Record(m, pad) + rest, 4) == Got((m.(byAuthor := m.byAuthor % 256), rest))
  {
    ReplyTags();
    RecordFollowed(m, pad, rest);
    var end := m.text + (MSGEND + rest);
    var slot, d2 := [m.byAuthor % 256] + pad, U64(m.id) + (U64(|m.text|) + end);
    EatTag(MSG, slot + d2);
    assert (slot + d2)[4..] == d2 && (slot + d2)[0] == m.byAuthor % 256;
    EatU64Prefix(m.id, U64(|m.text|) + end);
    EatU64Prefix(|m.text|, end);
    EatTag([], end);
    assert [] + end == end;
    assert end[..|m.text|] == m.text && end[|m.text|..] == MSGEND + rest;
    EatTag(MSGEND, rest);
  }

  lemma {:induction false} ReadsHistory(ms: seq<Message>, pads: seq<Padding>)
    requires forall k :: 0 <= k < |ms| ==> |ms[k].text| < TWO_64
    ensures ReadHistory(Records(ms, pads), |ms|, 4) == Got(AsListed(ms))
    decreases |ms|
  {
    if ms != [] {
      ReadsPosted(ms[0], HeadPad(pads), Records(ms[1..], TailPads(pads)));
      ReadsHistory(ms[1..], TailPads(pads));
      AsListedCons(ms);
      hide ReadPosted, Record, AsListed;
    }
  }

  lemma ReadsText(tag: bytes, text: bytes, rest: bytes)
    ensures ReadText(tag, tag + (text + rest), |text|) == Got((text, rest))
  {
    EatTag(tag, text + rest);
    assert (text + rest)[..|text|] == text && (text + rest)[|text|..] == rest;
  }

  lemma ListingSteps(d: bytes, d1: bytes, d2: bytes, d3: bytes, d4: bytes, slot: nat, l: Listing)
    requires slot > 0 && |l.topic| < TWO_64 && |l.messages| < TWO_64
    requires ReadField(Ascii("THRID"), d) == Got((l.id, d1)) && ReadField(Ascii("TPCSZ"), d1) == Got((|l.topic|, d2))
    requires ReadText(Ascii("TPC"), d2, |l.topic|) == Got((l.topic, d3))
    requires ReadField(Ascii("MSGCNT"), d3) == Got((|l.messages|, d4))
    requires ReadHistory(d4, |l.messages|, slot) == Got(l.messages)
    ensures ReadListing(d, slot) == Got(l)
  {
    hide ReadField, ReadText, ReadHistory, Ascii;
  }

  lemma ReplyFields(t: Thread, pads: seq<Padding>)
    ensures GetReply(t, pads)
         == Field(THRID, t.id, Field(TPCSZ, |t.topic|,
              TPC + (t.topic + Field(MSGCNT, MessageCount(t), Records(t.messages, pads)))))
  {}

  /** The GTHR reply lists the thread's id, topic and messages, each with the id it has on the server. */
  lemma ListingRoundTrip(t: Thread, pads: seq<Padding>)
    requires |t.topic| < TWO_64 && GoodHistory(t)
    ensures ReadListing(GetReply(t, pads), 4) == Got(Listing(t.id, t.topic, AsListed(t.messages)))
  {
    CountIsLength(t);
    ReplyFields(t, pads);
    RequestTags();
    ReplyTags();
    assert forall k :: 0 <= k < |t.messages| ==> GoodMessage(t.messages[k]);
    ReadsHistory(t.messages, pads);
    hide Field, Records, GetReply, Ascii, MessageCount, ReadListing, ReadHistory, GoodHistory, ReadText, ReadField;
    var d4 := Records(t.messages, pads);
    var d3 := Field(MSGCNT, MessageCount(t), d4);
    var d2 := TPC + (t.topic + d3);
    var d1 := Field(TPCSZ, |t.topic|, d2);
    ReadsField(THRID, t.id, d1);
    ReadsField(TPCSZ, |t.topic|, d2);
    ReadsText(TPC, t.topic, d3);
    ReadsField(MSGCNT, MessageCount(t), d4);
    ListingSteps(GetReply(t, pads), d1, d2, d3, d4, 4, Listing(t.id, t.topic, AsListed(t.messages)));
  }

  // ------------------------------------------------- the flag slot that is documented

  lemma UpOneByte(p: nat, n: nat)
    ensures 256 * (p * n) == (256 * p) * n
  {}

  lemma {:induction false} FromLeJoined(a: bytes, b: bytes)
    ensures FromLe(a + b) == FromLe(a) + Pow256(|a|) * FromLe(b)
    decreases |a|
  {
    if a == [] {
      assert a + b == b;
    } else {
      FromLeJoined(a[1..], b);
      assert (a + b)[1..] == a[1..] + b;
      UpOneByte(Pow256(|a| - 1), FromLe(b));
    }
  }

  lemma {:induction false} LePrefix(n: nat, width: nat, k: nat)
    requires k <= width
    ensures Le(n, width)[..k] == Le(n, k)
    decreases k
  {
    if k > 0 {
      LePrefix(n / 256, width - 1, k - 1);
      assert Le(n, width)[..k] == [n % 256] + Le(n / 256, width - 1)[..k - 1];
    }
  }

  /** The size that a reader of one-byte slots finds: at least the true one, moved up by three bytes. */
  lemma ShiftedSize(high: bytes, size: u64)
    requires |high| == 3 && 3 <= size <= 512
    ensures FromLe(high + U64(size)[..5]) >= 3 * 0x100_0000
  {
    var p3, p5 := Pow256(3), Pow256(5);
    assert p3 == 0x100_0000 by {
      assert Pow256(3) == 256 * Pow256(2) == 256 * (256 * Pow256(1));
    }
    assert p5 > 512 by {
      assert Pow256(5) == 256 * Pow256(4) && Pow256(4) == 256 * p3;
    }
    FromLeJoined(high, U64(size)[..5]);
    LePrefix(size, 8, 5);
    LeThenFromLe(size, 5);
  }

  lemma ShiftedFields(slot: bytes, id: bytes, size: bytes, rest: bytes)
    requires |slot| == 4 && |id| == |size| == 8
    ensures var d := slot + (id + (size + rest));
      |d| >= 17 && d[1..][8..][..8] == id[5..] + size[..5]
  {}

  /** Read by the documented one-byte slot, no message is read as it is. */
  lemma OneByteSlotMisreads(m: Message, pad: Padding, rest: bytes)
    requires TextFits(m.text)
    ensures ReadPosted(Record(m, pad) + rest, 1).Got? ==>
      |ReadPosted(Record(m, pad) + rest, 1).value.0.text| > |m.text|
  {
    ReplyTags();
    RecordFollowed(m, pad, rest);
    var end := m.text + (MSGEND + rest);
    var slot := [m.byAuthor % 256] + pad;
    var d1 := slot + (U64(m.id) + (U64(|m.text|) + end));
    EatTag(MSG, d1);
    ShiftedFields(slot, U64(m.id), U64(|m.text|), end);
    ShiftedSize(U64(m.id)[5..], |m.text|);
    hide Record, U64, FromLe;
  }

  /** The documentation's one-byte flag slot reads a reply's history if and only if there is none. */
  lemma DocumentedSlotReadsOnlyEmpty(ms: seq<Message>, pads: seq<Padding>)
    requires forall k :: 0 <= k < |ms| ==> GoodMessage(ms[k])
    ensures ReadHistory(Records(ms, pads), |ms|, 1) == Got(AsListed(ms)) <==> ms == []
  {
    if ms != [] {
      assert GoodMessage(ms[0]);
      OneByteSlotMisreads(ms[0], HeadPad(pads), Records(ms[1..], TailPads(pads)));
      assert Records(ms, pads) == Record(ms[0], HeadPad(pads)) + Records(ms[1..], TailPads(pads));
      hide ReadPosted, Record, Records;
      var r := ReadHistory(Records(ms, pads), |ms|, 1);
      assert r.Got? ==> r.value[0] == ReadPosted(Records(ms, pads), 1).value.0;
      assert AsListed(ms)[0].text == ms[0].text;
    } else {
      assert AsListed(ms) == [];
    }
  }

  /** The CTHR reply is the documented one, and two bytes more. */
  lemma CreateReplyLayout(id: u64, token: bytes, tail: bytes)
    requires |token| == 24 && |tail| == 2
    ensures var documented := Ascii("THRID") + (U64(id) + (Ascii("TKN") + token));
      |documented| == 40 && CreateReply(id, token, tail) == documented + tail
  {
    RequestTags();
    Assoc(TKN, token, tail);
    Assoc(U64(id), TKN + token, tail);
    Assoc(THRID, U64(id) + (TKN + token), tail);
  }
}
