/** The server as a state machine: registry, id counter, save queues and files, one atomic step at a time. */
module Store {
  import opened Bytes
  import opened Forum
  import opened ForumIo
  import opened Wire

  datatype Pending = Pending(owner: u64, msg: Message)

  /** The queues of shared pointers are kept as the ids of the threads they point to. */
  datatype State = State(
    threads: seq<Thread>,
    nextId: u64,
    infoQ: seq<u64>,
    authorQ: seq<u64>,
    msgQ: seq<Pending>,
    dirs: Dirs,
    meta: Option<bytes>
  )

  /** What one handler takes from outside: random numbers, unwritten buffer bytes, leftovers of a short read. */
  datatype Oracle = Oracle(
    first: u64, authorId: u64, token: bytes, tail: bytes, pads: seq<Padding>, junk: seq<Message>
  )

  datatype Reply = Frame(data: bytes) | Undefined

  function StatusReply(s: Status): Reply {
    Frame(StatusText(s))
  }

  // ------------------------------------------------------------------- lookups

  function IdsOf(ts: seq<Thread>): seq<u64> {
    seq(|ts|, i requires 0 <= i < |ts| => ts[i].id)
  }

  /** Index of the first thread with this id, or -1. */
  function IndexOf(ts: seq<Thread>, id: u64): (r: int)
    ensures -1 <= r < |ts|
    ensures r >= 0 ==> ts[r].id == id
    ensures forall k :: 0 <= k < (if r < 0 then |ts| else r) ==> ts[k].id != id
  {
    if ts == [] then -1
    else if ts[0].id == id then 0
    else var r := IndexOf(ts[1..], id); if r < 0 then -1 else r + 1
  }

  /** The lazy loads of `lethread_get_by_id`. */
  function Touch(t: Thread, dirs: Dirs, junk: seq<Message>): (u: Thread)
    ensures u.id == t.id && u.topic == t.topic && u.first == t.first && u.next == t.next
  {
    var t1 := if t.messages == [] && MessageCount(t) != 0 then LoadMessages(dirs, t, junk) else t;
    if t1.author.None? then LoadAuthor(dirs, t1) else t1
  }

  function Lookup(s: State, id: u64, junk: seq<Message>): (State, int) {
    var i := IndexOf(s.threads, id);
    if i < 0 then (s, i) else (s.(threads := s.threads[i := Touch(s.threads[i], s.dirs, junk)]), i)
  }

  function Matches(ts: seq<Thread>, part: bytes): seq<Found> {
    if ts == [] then []
    else (if Contains(ts[0].topic, part) then [Found(ts[0].id, ts[0].topic)] else []) + Matches(ts[1..], part)
  }

  // ------------------------------------------------------------------- handlers

  function HandleGet(s: State, id: u64, o: Oracle): (State, Reply) {
    var (s1, i) := Lookup(s, id, o.junk);
    if i < 0 then (s1, StatusReply(NFND)) else (s1, Frame(GetReply(s1.threads[i], o.pads)))
  }

  /** A thread as CTHR makes it: empty, numbered from a random id, with an author and a token. */
  function CreatedThread(id: u64, topic: bytes, o: Oracle): Thread {
    NewThread(topic, id, o.first).(author := Some(Author(o.authorId % RANDOM_IDS, o.token)))
  }

  /** The counter is advanced and written to disk before the id is used. */
  function HandleCreate(s: State, topic: bytes, o: Oracle): (State, Reply) {
    var id := s.nextId;
    var next := (id + 1) % TWO_64;
    var t := CreatedThread(id, topic, o);
    (s.(threads := s.threads + [t], nextId := next, meta := Some(U64(next)),
        infoQ := s.infoQ + [id], authorQ := s.authorQ + [id]),
     Frame(CreateReply(id, o.token, o.tail)))
  }

  function HandleFind(s: State, part: bytes): (State, Reply) {
    (s, Frame(FindReply(Matches(s.threads, part))))
  }

  function PostFlag(t: Thread, token: Option<bytes>): u32 {
    if token.None? then FALSE else TokenFlag(t, token.value)
  }

  /** The thread is looked up, and loaded, before the rest of the packet is checked. */
  function HandlePost(s: State, id: u64, body: Body, o: Oracle): (State, Reply) {
    var (s1, i) := Lookup(s, id, o.junk);
    if i < 0 then (s1, StatusReply(NFND)) else
    match body
    case BadBody(status) => (s1, StatusReply(status))
    case UndefinedBody => (s1, Undefined)
    case Text(text, token) =>
      var t := s1.threads[i];
      var flag := PostFlag(t, token);
      (s1.(threads := s1.threads[i := WithMessage(t, text, flag)],
           msgQ := s1.msgQ + [Pending(id, Message(t.next, text, flag))],
           infoQ := s1.infoQ + [id]),
       StatusReply(OK))
  }

  function Handle(s: State, r: Request, o: Oracle): (State, Reply) {
    match r
    case Get(id) => HandleGet(s, id, o)
    case Create(topic) => HandleCreate(s, topic, o)
    case Find(part) => HandleFind(s, part)
    case Post(id, body) => HandlePost(s, id, body, o)
    case Meta => (s, Frame(MetaReply(|s.threads|)))
    case Live => (s, StatusReply(OK))
    case Reject(status) => (s, StatusReply(status))
    case UndefinedRequest => (s, Undefined)
  }

  // -------------------------------------------------------------- writer threads

  /** A writer saves the thread as it is now, not as it was when it was queued. */
  function WriteInfo(s: State): State {
    if s.infoQ == [] then s else
    var i := IndexOf(s.threads, s.infoQ[0]);
    s.(infoQ := s.infoQ[1..], dirs := if i < 0 then s.dirs else SaveInfo(s.dirs, s.threads[i]))
  }

  function WriteAuthor(s: State): State {
    if s.authorQ == [] then s else
    var i := IndexOf(s.threads, s.authorQ[0]);
    s.(authorQ := s.authorQ[1..], dirs := if i < 0 then s.dirs else SaveAuthor(s.dirs, s.threads[i]))
  }

  function WriteMessage(s: State): State {
    if s.msgQ == [] then s
    else s.(msgQ := s.msgQ[1..], dirs := AppendRecord(s.dirs, s.msgQ[0].owner, s.msgQ[0].msg))
  }

  /** The inner loop of a writer: turns until its queue is empty. */
  function DrainInfo(s: State): State
    decreases |s.infoQ|
  {
    if s.infoQ == [] then s else DrainInfo(WriteInfo(s))
  }

  function DrainAuthors(s: State): State
    decreases |s.authorQ|
  {
    if s.authorQ == [] then s else DrainAuthors(WriteAuthor(s))
  }

  function DrainMessages(s: State): State
    decreases |s.msgQ|
  {
    if s.msgQ == [] then s else DrainMessages(WriteMessage(s))
  }

  function DrainAll(s: State): State {
    DrainMessages(DrainAuthors(DrainInfo(s)))
  }

  // --------------------------------------------------------------- stop and start

  /** `lemeta_load`. */
  function MetaValue(meta: Option<bytes>): u64 {
    if meta.Some? && |meta.value| >= 8 then ReadU64(meta.value[..8]) else 0
  }

  /** Threads rebuilt from the directories, in the order the directory listing gives them. */
  function LoadAll(dirs: Dirs, order: seq<u64>): seq<Thread> {
    if order == [] then [] else
    match LoadThread(dirs, order[0])
    case None => LoadAll(dirs, order[1..])
    case Some(t) => [LoadAuthor(dirs, t)] + LoadAll(dirs, order[1..])
  }

  /** A listing names every directory once. */
  ghost predicate Listing(dirs: Dirs, order: seq<u64>) {
    && (forall k :: 0 <= k < |order| ==> order[k] in dirs)
    && (forall id :: id in dirs ==> id in order)
    && (forall j, k :: 0 <= j < k < |order| ==> order[j] != order[k])
  }

  function Startup(dirs: Dirs, meta: Option<bytes>, order: seq<u64>): State {
    State(LoadAll(dirs, order), MetaValue(meta), [], [], [], dirs, meta)
  }

  /** `cleanup` writes the counter and drops the queues with whatever they still hold; a crash only drops. */
  function Reboot(s: State, graceful: bool, order: seq<u64>): State {
    Startup(s.dirs, if graceful then Some(U64(s.nextId)) else s.meta, order)
  }

  datatype Event =
    | Packet(data: bytes, oracle: Oracle)
    | InfoWriter
    | AuthorWriter
    | MessageWriter
    | Restart(graceful: bool, order: seq<u64>)

  /** One step, and the reply if the step answers a packet. */
  function Step(s: State, e: Event): (State, Option<Reply>) {
    match e
    case Packet(data, o) => var (s', r) := Handle(s, ReadRequest(data), o); (s', Some(r))
    case InfoWriter => (WriteInfo(s), None)
    case AuthorWriter => (WriteAuthor(s), None)
    case MessageWriter => (WriteMessage(s), None)
    case Restart(graceful, order) => (Reboot(s, graceful, order), None)
  }

  const INITIAL: State := State([], 0, [], [], [], map[], None)
}
