/** The files of a thread: the info file, the append-only message log and the author file. */
module ForumIo {
  import opened Bytes
  import opened Forum

  datatype Dir = Dir(info: Option<bytes>, log: Option<bytes>, author: Option<bytes>)
  type Dirs = map<u64, Dir>

  function DirOf(dirs: Dirs, id: u64): Dir {
    if id in dirs then dirs[id] else Dir(None, None, None)
  }

  /** Opening the log in append mode creates it empty. */
  function LogBytes(d: Dir): bytes {
    if d.log.Some? then d.log.value else []
  }

  // ------------------------------------------------------------------- info file

  datatype Info = Info(id: u64, authorId: u64, first: u64, next: u64, topic: bytes)

  function EncodeInfo(t: Thread, authorId: u64): bytes
  {
    U64(t.id) + (U64(authorId) + (U64(t.first) + (U64(t.next) + (U64(|t.topic|) + t.topic))))
  }

  function DecodeInfo(b: bytes): Option<Info> {
    if |b| < 40 then None else
    var (id, b1) := EatU64(b).value;
    var (authorId, b2) := EatU64(b1).value;
    var (first, b3) := EatU64(b2).value;
    var (next, b4) := EatU64(b3).value;
    var (size, b5) := EatU64(b4).value;
    Some(Info(id, authorId, first, next, CStrN(b5, if size < MAX_TOPIC_SIZE then size else MAX_TOPIC_SIZE)))
  }

  /** `MIN(topic_size, MAX_TOPIC_SIZE)`: a longer topic comes back cut. */
  function CutTopic(topic: bytes): bytes {
    if |topic| <= MAX_TOPIC_SIZE then topic else topic[..MAX_TOPIC_SIZE]
  }

  lemma InfoRoundTrip(t: Thread, authorId: u64)
    requires NulFree(t.topic) && |t.topic| < TWO_64
    ensures DecodeInfo(EncodeInfo(t, authorId)) == Some(Info(t.id, authorId, t.first, t.next, CutTopic(t.topic)))
  {
    var b5 := t.topic;
    var b4 := U64(|b5|) + b5;
    var b3 := U64(t.next) + b4;
    var b2 := U64(t.first) + b3;
    var b1 := U64(authorId) + b2;
    EatU64Prefix(t.id, b1);
    EatU64Prefix(authorId, b2);
    EatU64Prefix(t.first, b3);
    EatU64Prefix(t.next, b4);
    EatU64Prefix(|b5|, b5);
    var cut := CutTopic(b5);
    assert b5 == cut + b5[|cut|..];
    CStrNPrefix(cut, b5[|cut|..]);
  }

  /** Saving and loading preserves a topic exactly when it is at most 64 bytes. */
  lemma CutTopicExact(topic: bytes)
    ensures CutTopic(topic) == topic <==> |topic| <= 64
    ensures |topic| > 64 ==> CutTopic(topic) == topic[..64]
    ensures CutTopic(CutTopic(topic)) == CutTopic(topic)
  {
    assert |topic| > MAX_TOPIC_SIZE ==> |CutTopic(topic)| != |topic|;
  }

  // ----------------------------------------------------------------- message log

  function EncodeRecord(m: Message): bytes
  {
    U64(m.id) + (U32(m.byAuthor) + (U64(|m.text|) + m.text))
  }

  ghost predicate TextsStored(ms: seq<Message>) {
    forall k :: 0 <= k < |ms| ==> GoodMessage(ms[k])
  }

  function EncodeRecords(ms: seq<Message>): bytes
  {
    if ms == [] then [] else EncodeRecord(ms[0]) + EncodeRecords(ms[1..])
  }

  function StoredSize(size: u64): nat {
    if size < MAX_MESSAGE_SIZE then size else MAX_MESSAGE_SIZE
  }

  function DecodeRecord(b: bytes): Option<(Message, bytes)> {
    if |b| < 20 || |b| < 20 + StoredSize(ReadU64(b[12..20])) then None else
    var n := StoredSize(ReadU64(b[12..20]));
    Some((Message(ReadU64(b[..8]), CStrN(b[20..], n), ReadU32(b[8..12])), b[20 + n..]))
  }

  function JunkAt(junk: seq<Message>, k: nat): Message {
    if k < |junk| then junk[k] else Message(0, [], 0)
  }

  /**
    One turn of `lemessages_load`. Past the end of the file the id and flag are what `malloc` left there and the
    text is the zeros of `calloc`; in the middle of a record nothing is known of the message.
   */
  function ReadMessage(b: bytes, junk: Message): (Message, bytes) {
    match DecodeRecord(b)
    case Some(r) => r
    case None => (Message(junk.id, if b == [] then [] else junk.text, junk.byAuthor), [])
  }

  /** `lemessages_load`: as many messages as the thread announces, whether or not the file has them. */
  function LoadRecords(b: bytes, n: nat, sofar: seq<Message>, junk: seq<Message>): seq<Message>
    decreases n
  {
    if n == 0 then sofar else
    var (m, rest) := ReadMessage(b, JunkAt(junk, |sofar|));
    LoadRecords(rest, n - 1, sofar + [m], junk)
  }

  /** Appending the encoding of more messages is encoding the longer history. */
  lemma {:induction false} EncodeRecordsAppend(ms: seq<Message>, more: seq<Message>)
    ensures EncodeRecords(ms + more) == EncodeRecords(ms) + EncodeRecords(more)
  {
    if ms == [] {
      assert ms + more == more;
    } else {
      assert (ms + more)[1..] == ms[1..] + more;
      EncodeRecordsAppend(ms[1..], more);
      assert EncodeRecord(ms[0]) + (EncodeRecords(ms[1..]) + EncodeRecords(more))
          == (EncodeRecord(ms[0]) + EncodeRecords(ms[1..])) + EncodeRecords(more);
    }
  }

  lemma RecordRoundTrip(m: Message, rest: bytes)
    requires GoodMessage(m)
    ensures DecodeRecord(EncodeRecord(m) + rest) == Some((m, rest))
  {
    var b := EncodeRecord(m) + rest;
    U64RoundTrip(m.id);
    U32RoundTrip(m.byAuthor);
    U64RoundTrip(|m.text|);
    assert b[..8] == U64(m.id);
    assert b[8..12] == U32(m.byAuthor);
    assert b[12..20] == U64(|m.text|);
    assert b[20..] == m.text + rest;
    assert b[20 + |m.text|..] == rest;
    CStrNPrefix(m.text, rest);
  }

  lemma LoadRecordsStep(b: bytes, m: Message, rest: bytes, n: nat, sofar: seq<Message>, junk: seq<Message>)
    requires n > 0 && ReadMessage(b, JunkAt(junk, |sofar|)) == (m, rest)
    ensures LoadRecords(b, n, sofar, junk) == LoadRecords(rest, n - 1, sofar + [m], junk)
  {}

  lemma LoadRecordsDone(b: bytes, sofar: seq<Message>, junk: seq<Message>)
    ensures LoadRecords(b, 0, sofar, junk) == sofar
  {}

  lemma LogStep(m: Message, b: bytes, n: nat, sofar: seq<Message>, junk: seq<Message>)
    requires GoodMessage(m) && n > 0
    ensures LoadRecords(EncodeRecord(m) + b, n, sofar, junk) == LoadRecords(b, n - 1, sofar + [m], junk)
  {
    RecordRoundTrip(m, b);
    hide DecodeRecord, EncodeRecord, LoadRecords;
    LoadRecordsStep(EncodeRecord(m) + b, m, b, n, sofar, junk);
  }

  /** Loading from a log that starts with the encoding of `ms` gets past `ms` and goes on with the rest. */
  lemma {:induction false} LoadsPast(ms: seq<Message>, rest: bytes, k: nat, sofar: seq<Message>, junk: seq<Message>)
    requires TextsStored(ms)
    ensures LoadRecords(EncodeRecords(ms) + rest, |ms| + k, sofar, junk) == LoadRecords(rest, k, sofar + ms, junk)
    decreases |ms|
  {
    hide DecodeRecord, EncodeRecord, ReadMessage;
    if ms == [] {
      assert sofar + ms == sofar && EncodeRecords(ms) + rest == rest;
    } else {
      var tail := EncodeRecords(ms[1..]) + rest;
      assert sofar + ms == (sofar + [ms[0]]) + ms[1..];
      assert EncodeRecords(ms) + rest == EncodeRecord(ms[0]) + tail;
      assert GoodMessage(ms[0]);
      hide LoadRecords;
      LogStep(ms[0], tail, |ms| + k, sofar, junk);
      LoadsPast(ms[1..], rest, k, sofar + [ms[0]], junk);
      assert |ms| + k - 1 == |ms[1..]| + k;
    }
  }

  /** Loading the encoding of a history reads that history back, whatever follows it in the file. */
  lemma LogRoundTrip(ms: seq<Message>, rest: bytes, sofar: seq<Message>, junk: seq<Message>)
    requires TextsStored(ms)
    ensures LoadRecords(EncodeRecords(ms) + rest, |ms|, sofar, junk) == sofar + ms
  {
    hide LoadRecords, EncodeRecords;
    LoadsPast(ms, rest, 0, sofar, junk);
    LoadRecordsDone(rest, sofar + ms, junk);
    assert |ms| + 0 == |ms|;
  }

  /** What a message holds that was read after the end of the file: nothing but an empty text. */
  function Unread(k: nat, junk: seq<Message>): Message {
    Message(JunkAt(junk, k).id, [], JunkAt(junk, k).byAuthor)
  }

  lemma {:induction false} LoadsNothing(n: nat, sofar: seq<Message>, junk: seq<Message>)
    ensures var ms := LoadRecords([], n, sofar, junk);
      && |ms| == |sofar| + n && ms[..|sofar|] == sofar
      && forall k :: |sofar| <= k < |ms| ==> ms[k] == Unread(k, junk)
    decreases n
  {
    if n > 0 {
      var m := Unread(|sofar|, junk);
      assert DecodeRecord([]).None?;
      LoadRecordsStep([], m, [], n, sofar, junk);
      LoadsNothing(n - 1, sofar + [m], junk);
      var ms := LoadRecords([], n, sofar, junk);
      assert ms[..|sofar|] == ms[..|sofar| + 1][..|sofar|];
      assert ms[|sofar|] == ms[..|sofar| + 1][|sofar|];
    }
  }

  /** A log with fewer records than announced still fills the list: those records, then messages with no text. */
  lemma ShortLogLeavesUnread(ms: seq<Message>, n: nat, junk: seq<Message>)
    requires TextsStored(ms) && n >= |ms|
    ensures var loaded := LoadRecords(EncodeRecords(ms), n, [], junk);
      && |loaded| == n && loaded[..|ms|] == ms
      && forall k :: |ms| <= k < n ==> loaded[k] == Unread(k, junk)
  {
    hide LoadRecords, EncodeRecords;
    LoadsPast(ms, [], n - |ms|, [], junk);
    assert EncodeRecords(ms) + [] == EncodeRecords(ms) && [] + ms == ms && |ms| + (n - |ms|) == n;
    LoadsNothing(n - |ms|, ms, junk);
  }

  // ----------------------------------------------------------------- author file

  function EncodeAuthor(a: Author): bytes {
    U64(a.id) + a.token
  }

  /** None when the file is shorter than an id and a token. */
  function DecodeAuthor(b: bytes): Option<Author> {
    if |b| < 8 + TOKEN_SIZE then None
    else var (id, b1) := EatU64(b).value; Some(Author(id, b1[..TOKEN_SIZE]))
  }

  lemma AuthorRoundTrip(a: Author)
    requires |a.token| == TOKEN_SIZE
    ensures DecodeAuthor(EncodeAuthor(a)) == Some(a)
  {
    EatU64Prefix(a.id, a.token);
    assert a.token[..TOKEN_SIZE] == a.token;
  }

  // ------------------------------------------------------------------ file layouts

  /** Where each field of an info file stands. */
  lemma InfoLayout(t: Thread, authorId: u64)
    ensures var b := EncodeInfo(t, authorId);
      && |b| == 40 + |t.topic|
      && ReadU64(b[..8]) == t.id && ReadU64(b[8..16]) == authorId
      && ReadU64(b[16..24]) == t.first && ReadU64(b[24..32]) == t.next
      && (|t.topic| < TWO_64 ==> ReadU64(b[32..40]) == |t.topic|) && b[40..] == t.topic
  {
    var b := EncodeInfo(t, authorId);
    assert b[..8] == U64(t.id) && b[8..16] == U64(authorId) && b[16..24] == U64(t.first);
    assert b[24..32] == U64(t.next) && b[32..40] == U64(|t.topic|) && b[40..] == t.topic;
    U64RoundTrip(t.id);
    U64RoundTrip(authorId);
    U64RoundTrip(t.first);
    U64RoundTrip(t.next);
    if |t.topic| < TWO_64 { U64RoundTrip(|t.topic|); }
  }

  lemma RecordLayout(m: Message)
    requires |m.text| < TWO_64
    ensures var b := EncodeRecord(m);
      && |b| == 20 + |m.text| && ReadU64(b[..8]) == m.id && ReadU32(b[8..12]) == m.byAuthor
      && ReadU64(b[12..20]) == |m.text| && b[20..] == m.text
  {
    var b := EncodeRecord(m);
    assert b[..8] == U64(m.id) && b[8..12] == U32(m.byAuthor);
    assert b[12..20] == U64(|m.text|) && b[20..] == m.text;
    U64RoundTrip(m.id);
    U32RoundTrip(m.byAuthor);
    U64RoundTrip(|m.text|);
  }

  lemma AuthorLayout(a: Author)
    ensures ReadU64(EncodeAuthor(a)[..8]) == a.id && EncodeAuthor(a)[8..] == a.token
  {
    U64RoundTrip(a.id);
    assert EncodeAuthor(a)[..8] == U64(a.id);
  }

  // ------------------------------------------------------- saving and loading threads

  function SaveInfo(dirs: Dirs, t: Thread): Dirs
  {
    if t.author.None? then dirs
    else dirs[t.id := DirOf(dirs, t.id).(info := Some(EncodeInfo(t, t.author.value.id)))]
  }

  function SaveAuthor(dirs: Dirs, t: Thread): Dirs {
    if t.author.None? then dirs
    else dirs[t.id := DirOf(dirs, t.id).(author := Some(EncodeAuthor(t.author.value)))]
  }

  function AppendRecord(dirs: Dirs, id: u64, m: Message): Dirs
  {
    dirs[id := DirOf(dirs, id).(log := Some(LogBytes(DirOf(dirs, id)) + EncodeRecord(m)))]
  }

  function SaveHistory(dirs: Dirs, t: Thread): Dirs
  {
    dirs[t.id := DirOf(dirs, t.id).(log := Some(EncodeRecords(t.messages)))]
  }

  function LoadThread(dirs: Dirs, id: u64): Option<Thread> {
    match DirOf(dirs, id).info
    case None => None
    case Some(b) =>
      match DecodeInfo(b)
      case None => None
      case Some(i) => Some(Thread(i.id, i.first, i.next, i.topic, [], None))
  }

  function LoadAuthor(dirs: Dirs, t: Thread): Thread {
    match DirOf(dirs, t.id).author
    case None => t
    case Some(b) => match DecodeAuthor(b) case None => t case Some(a) => t.(author := Some(a))
  }

  /** `junk` is what `malloc` returns for the messages that the file does not have. */
  function LoadMessages(dirs: Dirs, t: Thread, junk: seq<Message>): Thread {
    match DirOf(dirs, t.id).log
    case None => t
    case Some(b) =>
      t.(messages := LoadRecords(b, MessageCount(t), t.messages, junk))
  }

  lemma EncodeOneMore(ms: seq<Message>, m: Message)
    ensures EncodeRecords(ms + [m]) == EncodeRecords(ms) + EncodeRecord(m)
  {
    EncodeRecordsAppend(ms, [m]);
    assert [m][1..] == [];
    assert EncodeRecord(m) + [] == EncodeRecord(m);
  }

  /** The append log refines the whole save: appending one record equals saving the longer history. */
  lemma AppendRefinesWholeSave(dirs: Dirs, t: Thread, text: bytes, flag: u32)
    requires TextFits(text)
    ensures var u := WithMessage(t, text, flag);
      AppendRecord(SaveHistory(dirs, t), t.id, Message(t.next, text, flag)) == SaveHistory(dirs, u)
  {
    EncodeOneMore(t.messages, Message(t.next, text, flag));
  }

  /** A log that starts with the encoding of `ms` loads as `ms` when the thread announces |ms| messages. */
  lemma LoadsStoredHistory(dirs: Dirs, t: Thread, ms: seq<Message>, rest: bytes, junk: seq<Message>)
    requires TextsStored(ms) && MessageCount(t) == |ms| && t.messages == []
    requires DirOf(dirs, t.id).log == Some(EncodeRecords(ms) + rest)
    ensures LoadMessages(dirs, t, junk) == t.(messages := ms)
  {
    hide LoadRecords, EncodeRecords;
    LogRoundTrip(ms, rest, [], junk);
    assert [] + ms == ms;
  }

  /** Loading after a save reads back exactly the ids, flags and texts of the history. */
  lemma HistoryRoundTrip(dirs: Dirs, t: Thread, junk: seq<Message>)
    requires TextsStored(t.messages) && MessageCount(t) == |t.messages|
    ensures LoadMessages(SaveHistory(dirs, t), t.(messages := []), junk) == t
  {
    assert EncodeRecords(t.messages) + [] == EncodeRecords(t.messages);
    LoadsStoredHistory(SaveHistory(dirs, t), t.(messages := []), t.messages, [], junk);
  }

  // ------------------------------------------------------------------- the disk object

  class Disk {
    var dirs: Dirs
    var meta: Option<bytes>

    constructor (dirs: Dirs, meta: Option<bytes>)
      ensures this.dirs == dirs && this.meta == meta
    {
      this.dirs, this.meta := dirs, meta;
    }

    method LethreadSave(t: LeThread) returns (status: Status)
      modifies this
      ensures dirs == SaveInfo(old(dirs), t.View()) && meta == old(meta)
      ensures status == if t.author.Some? then OK else IDAT
      ensures t.author.None? ==> dirs == old(dirs)
      ensures t.author.Some? ==>
        dirs == old(dirs)[t.id := DirOf(old(dirs), t.id).(info := Some(EncodeInfo(t.View(), t.author.value.id)))]
    {
      if t.author.None? {
        return IDAT;
      }
      // opened "wb", then "ab": the file starts empty
      var file: bytes := [];
      file := file + U64(t.id);
      file := file + U64(t.author.value.id);
      file := file + U64(t.first);
      file := file + U64(t.next);
      file := file + U64(|t.topic|);
      file := file + t.topic;
      assert file == EncodeInfo(t.View(), t.author.value.id);
      dirs := dirs[t.id := DirOf(dirs, t.id).(info := Some(file))];
      status := OK;
    }

    method LeauthorSave(t: LeThread) returns (status: Status)
      modifies this
      ensures dirs == SaveAuthor(old(dirs), t.View()) && meta == old(meta)
      ensures status == if t.author.Some? then OK else NPTR
      ensures t.author.None? ==> dirs == old(dirs)
    {
      if t.author.None? {
        return NPTR;
      }
      var file := U64(t.author.value.id);
      file := file + t.author.value.token;
      dirs := dirs[t.id := DirOf(dirs, t.id).(author := Some(file))];
      status := OK;
    }

    method LemessageSave(id: u64, m: Message)
      modifies this
      ensures dirs == AppendRecord(old(dirs), id, m) && meta == old(meta)
    {
      var file := LogBytes(DirOf(dirs, id));
      ghost var before := file;
      file := file + U64(m.id);
      file := file + U32(m.byAuthor);
      file := file + U64(|m.text|);
      file := file + m.text;
      assert file == before + EncodeRecord(m);
      dirs := dirs[id := DirOf(dirs, id).(log := Some(file))];
    }

    method LemessagesSave(t: LeThread)
      modifies this
      ensures dirs == SaveHistory(old(dirs), t.View()) && meta == old(meta)
    {
      var file: bytes := [];
      for i := 0 to |t.messages|
        invariant file == EncodeRecords(t.messages[..i])
        invariant dirs == old(dirs) && meta == old(meta) && t.View() == old(t.View())
      {
        var m := t.messages[i];
        EncodeOneMore(t.messages[..i], m);
        assert t.messages[..i + 1] == t.messages[..i] + [m];
        file := file + (U64(m.id) + (U32(m.byAuthor) + (U64(|m.text|) + m.text)));
      }
      assert t.messages[..|t.messages|] == t.messages;
      dirs := dirs[t.id := DirOf(dirs, t.id).(log := Some(file))];
    }

    /** As many turns as the thread announces messages; the file may run out before. */
    method LemessagesLoad(t: LeThread, junk: seq<Message>)
      modifies t
      ensures t.View() == LoadMessages(dirs, old(t.View()), junk)
    {
      if t.id !in dirs || dirs[t.id].log.None? {
        return;
      }
      hide DecodeRecord, LoadRecords, ReadMessage, JunkAt, MessageCount;
      var file := dirs[t.id].log.value;
      ghost var whole, before := file, t.View();
      var left := MessageCount(t.View());
      while left > 0
        invariant t.View() == before.(messages := t.messages)
        invariant LoadRecords(file, left, t.messages, junk)
               == LoadRecords(whole, MessageCount(before), before.messages, junk)
      {
        var (message, rest) := ReadMessage(file, JunkAt(junk, |t.messages|));
        LoadRecordsStep(file, message, rest, left, t.messages, junk);
        t.messages := t.messages + [message];
        file := rest;
        left := left - 1;
      }
      LoadRecordsDone(file, t.messages, junk);
    }

    method LeauthorLoad(t: LeThread)
      modifies t
      ensures t.View() == LoadAuthor(dirs, old(t.View()))
    {
      if t.id !in dirs || dirs[t.id].author.None? {
        return;
      }
      var a := DecodeAuthor(dirs[t.id].author.value);
      if a.Some? {
        t.author := Some(a.value);
      }
    }

    method LethreadLoad(id: u64) returns (t: LeThread?)
      ensures t != null ==> fresh(t) && LoadThread(dirs, id) == Some(t.View())
      ensures t == null ==> LoadThread(dirs, id) == None
    {
      if id !in dirs || dirs[id].info.None? {
        return null;
      }
      var i := DecodeInfo(dirs[id].info.value);
      if i.None? {
        return null;
      }
      t := new LeThread.Loaded(i.value.id, i.value.first, i.value.next, i.value.topic);
    }
  }
}
