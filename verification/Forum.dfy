/** Threads, messages and authors: the values, the heap object, and the operations of lib/forum.c. */
module Forum {
  import opened Bytes

  const MIN_MESSAGE_SIZE: nat := 3
  const MAX_MESSAGE_SIZE: nat := 512
  const MIN_TOPIC_SIZE: nat := 3
  const MAX_TOPIC_SIZE: nat := 64
  const TOKEN_SIZE: nat := 24
  const MAX_PACKET_SIZE: nat := 1024 * 1024

  /** The modulus applied to every random identifier. */
  const RANDOM_IDS: nat := 0xffff_ffff

  /** `bool_t` is a C int, kept here as its unsigned value; any non-zero value is true. */
  const FALSE: u32 := 0
  const TRUE: u32 := 1

  /** `(bool_t)-LESTATUS_NPTR`, which `is_token_valid` returns when the thread has no author. */
  const MINUS_NPTR: u32 := 0xffff_fff9

  datatype Status = OK | CLIB | NSFD | EXST | NFND | ISYN | IDAT | NPTR

  datatype Message = Message(id: u64, text: bytes, byAuthor: u32)
  datatype Author = Author(id: u64, token: bytes)
  datatype Thread = Thread(id: u64, first: u64, next: u64, topic: bytes, messages: seq<Message>, author: Option<Author>)

  /** A message as an object to be freed: the thread it belongs to and its number there. */
  type MessageKey = (u64, u64)

  function MessageCount(t: Thread): u64 {
    (t.next - t.first) % TWO_64
  }

  function NewThread(topic: bytes, id: u64, random: u64): Thread {
    var first := random % RANDOM_IDS;
    Thread(id, first, first, CStr(topic), [], None)
  }

  predicate TextFits(text: bytes) {
    MIN_MESSAGE_SIZE <= |text| <= MAX_MESSAGE_SIZE
  }

  /** A text outside the bounds is refused and leaves the thread alone. */
  function WithMessage(t: Thread, text: bytes, byAuthor: u32): Thread {
    if TextFits(text) then
      t.(next := (t.next + 1) % TWO_64, messages := t.messages + [Message(t.next, text, byAuthor)])
    else t
  }

  /** `is_token_valid`: -NPTR without an author, otherwise whether the first 24 bytes compare equal. */
  function TokenFlag(t: Thread, token: bytes): u32 {
    if t.author.None? then MINUS_NPTR
    else if StrNEq(t.author.value.token, token, TOKEN_SIZE) then TRUE else FALSE
  }

  // ------------------------------------------------------------ well-formed values

  ghost predicate GoodMessage(m: Message) {
    NulFree(m.text) && TextFits(m.text)
  }

  /** A token as `rand_string` makes it: 24 symbols in 0x21..0x7e. */
  ghost predicate GoodToken(token: bytes) {
    |token| == TOKEN_SIZE && forall i :: 0 <= i < |token| ==> 0x21 <= token[i] <= 0x7e
  }

  /** Messages are numbered without gaps from `first`, and the announced count is their number. */
  ghost predicate GoodHistory(t: Thread) {
    && t.next == t.first + |t.messages|
    && forall k :: 0 <= k < |t.messages| ==> GoodMessage(t.messages[k]) && t.messages[k].id == t.first + k
  }

  ghost predicate GoodThread(t: Thread) {
    && NulFree(t.topic) && |t.topic| <= MAX_PACKET_SIZE
    && GoodHistory(t)
    && t.author.Some? && GoodToken(t.author.value.token)
  }

  /** `str[i] = tmp % ALLOWED_SYMBOLS + MIN_SYMBOL` for every random byte that is kept. */
  function RandomSymbol(tmp: byte): byte {
    tmp % 94 + 0x21
  }

  function RandomToken(entropy: seq<byte>): (token: bytes)
    requires |entropy| == 24
    ensures |token| == 24 && forall i :: 0 <= i < |token| ==> 0x21 <= token[i] <= 0x7e
    ensures GoodToken(token)
  {
    seq(TOKEN_SIZE, i requires 0 <= i < |entropy| => RandomSymbol(entropy[i]))
  }

  /** A new thread is empty and numbered from what was drawn; only the largest 32-bit number wraps to zero. */
  lemma NewThreadIsEmpty(topic: bytes, id: u64, random: u32)
    ensures var t := NewThread(topic, id, random);
      && t.id == id && t.messages == [] && MessageCount(t) == 0
      && t.first == if random == 0xffff_ffff then 0 else random
  {}

  /** A posted message takes the old `next` as its id, and the history stays well numbered. */
  lemma PostKeepsHistory(t: Thread, text: bytes, flag: u32)
    requires GoodHistory(t) && t.next + 1 < TWO_64
    requires NulFree(text) && TextFits(text)
    ensures GoodHistory(WithMessage(t, text, flag))
    ensures MessageCount(WithMessage(t, text, flag)) == |t.messages| + 1
  {
    var u := WithMessage(t, text, flag);
    assert u.messages == t.messages + [Message(t.next, text, flag)];
  }

  lemma CountIsLength(t: Thread)
    requires GoodHistory(t)
    ensures MessageCount(t) == |t.messages|
  {
    assert 0 <= t.next - t.first < TWO_64;
  }

  /** The token test is exact: it needs the token's symbols to exclude NUL. */
  lemma TokenTestIsExact(t: Thread, token: bytes)
    requires t.author.Some? && GoodToken(t.author.value.token)
    ensures TokenFlag(t, token) == if 24 <= |token| && token[..24] == t.author.value.token then 1 else 0
  {
    StrNEqExact(t.author.value.token, token);
  }

  // ------------------------------------------------------------------ the heap object

  class LeThread {
    const id: u64
    const first: u64
    const topic: bytes
    var next: u64
    var messages: seq<Message>
    var author: Option<Author>

    function View(): Thread
      reads this
    {
      Thread(id, first, next, topic, messages, author)
    }

    constructor (topic: bytes, id: u64, random: u64)
      ensures View() == NewThread(topic, id, random)
    {
      this.id := id;
      this.first := random % RANDOM_IDS;
      this.next := random % RANDOM_IDS;
      this.topic := CStr(topic);
      this.messages := [];
      this.author := None;
    }

    /** A thread as `lethread_load` rebuilds it. */
    constructor Loaded(id: u64, first: u64, next: u64, topic: bytes)
      ensures View() == Thread(id, first, next, topic, [], None)
    {
      this.id, this.first, this.next, this.topic := id, first, next, topic;
      this.messages, this.author := [], None;
    }

    method CreateMessage(text: bytes, byAuthor: u32) returns (m: Option<Message>)
      modifies this
      ensures View() == WithMessage(old(View()), text, byAuthor)
      ensures m == if TextFits(text) then Some(Message(old(next), text, byAuthor)) else None
    {
      if |text| < MIN_MESSAGE_SIZE || |text| > MAX_MESSAGE_SIZE {
        return None;
      }
      var message := Message(next, text, byAuthor);
      next := (next + 1) % TWO_64;
      messages := messages + [message];
      m := Some(message);
    }
  }
}
