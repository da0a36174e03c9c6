/** Client loop and server handler on one live connection, a few bytes at a time, in any interleaving. */
module LockStep {
  import opened Bytes
  import opened Forum
  import opened Wire
  import opened Store
  import opened Eager
  import opened Communication
  import opened Runs
  import Api
  import EndToEnd
  import Connection

  /** `Gone`: after a probe went wrong the client has disconnected. */
  datatype Client = Idle | Sending(rest: bytes) | Awaiting | Reading(need: nat, got: bytes) | Gone

  datatype Handler = Listening | Taking(need: nat, got: bytes) | Replying(rest: bytes) | Closed

  /** One packet the server has handled: the forum it found, and what it drew from outside. */
  datatype Handled = Handled(packet: bytes, before: State, oracle: Oracle)

  /** A response as it is handed to the parser of a query. */
  datatype Answered = Answered(query: bytes, response: bytes)

  datatype Link = Link(
    client: Client, handler: Handler, up: bytes, down: bytes,
    asked: seq<bytes>, handled: seq<Handled>, answered: seq<Answered>, store: State
  )

  datatype Move =
    | Ask(query: bytes)
    | ClientSend(n: nat)
    | HandlerHead
    | HandlerTake(n: nat, oracle: Oracle)
    | HandlerSend(n: nat)
    | ClientHead
    | ClientTake(n: nat)
    | Elsewhere(event: Event)

  function ReplyTo(h: Handled): Reply {
    Handle(h.before, ReadRequest(h.packet), h.oracle).1
  }

  /** A move moves at least one byte of what is there; size fields arrive whole; no restart while connected. */
  ghost predicate CanMove(c: Link, m: Move) {
    match m
    case Ask(query) => c.client.Idle? && 0 < |query| <= MAX_PACKET_SIZE
    case ClientSend(n) => c.client.Sending? && 0 < n <= |c.client.rest|
    case HandlerHead => c.handler.Listening? && |c.up| >= 8
    case HandlerTake(n, o) =>
      && c.handler.Taking? && 0 < n <= |c.up| && |c.handler.got| + n <= c.handler.need
      && (|c.handler.got| + n == c.handler.need ==>
           var r := ReplyTo(Handled(c.handler.got + c.up[..n], c.store, o)); r.Frame? && |r.data| < TWO_64)
    case HandlerSend(n) => c.handler.Replying? && 0 < n <= |c.handler.rest|
    case ClientHead => c.client.Awaiting? && |c.down| >= 8
    case ClientTake(n) => c.client.Reading? && 0 < n <= |c.down| && |c.client.got| + n <= c.client.need
    case Elsewhere(event) => !event.Restart?
  }

  function Sent(rest: bytes): Client {
    if rest == [] then Awaiting else Sending(rest)
  }

  function Replied(rest: bytes): Handler {
    if rest == [] then Listening else Replying(rest)
  }

  /** With no query waiting the client sends LIVE; none of its queries is just that. */
  predicate Probing(c: Link) {
    c.asked != [] && c.asked[|c.asked| - 1] == LIVE
  }

  /** The answer to a probe is what a single `recv` brings, and has to start with OK. */
  function ReadsProbe(c: Link, got: bytes): Link {
    if Eat(StatusText(OK), got).Some? then c.(client := Idle, answered := c.answered + [Answered(LIVE, got)])
    else c.(client := Gone)
  }

  /** `query->parse_response` once the response is complete. */
  function Reads(c: Link, need: nat, got: bytes): Link {
    if |got| < need || c.asked == [] then c.(client := Reading(need, got))
    else c.(client := Idle, answered := c.answered + [Answered(c.asked[|c.asked| - 1], got)])
  }

  /** `query_process` once the packet is complete. */
  function Takes(c: Link, need: nat, got: bytes, o: Oracle): Link {
    if |got| < need then c.(handler := Taking(need, got)) else
    var (store, r) := Handle(c.store, ReadRequest(got), o);
    c.(store := store, handled := c.handled + [Handled(got, c.store, o)],
       handler := if r.Frame? then Replying(Framed(r.data)) else Closed)
  }

  ghost function After(c: Link, m: Move): Link
    requires CanMove(c, m)
  {
    match m
    case Ask(query) => c.(client := Sending(Framed(query)), asked := c.asked + [query])
    case ClientSend(n) => c.(up := c.up + c.client.rest[..n], client := Sent(c.client.rest[n..]))
    case HandlerHead =>
      var size := ReadU64(c.up[..8]);
      c.(up := c.up[8..], handler := if size > MAX_PACKET_SIZE || size == 0 then Closed else Taking(size, []))
    case HandlerTake(n, o) => Takes(c.(up := c.up[n..]), c.handler.need, c.handler.got + c.up[..n], o)
    case HandlerSend(n) => c.(down := c.down + c.handler.rest[..n], handler := Replied(c.handler.rest[n..]))
    case ClientHead =>
      var size := ReadU64(c.down[..8]);
      if Probing(c) && (size > MAX_PACKET_SIZE || size == 0) then c.(down := c.down[8..], client := Gone)
      else Reads(c.(down := c.down[8..]), size, [])
    case ClientTake(n) =>
      var c', got := c.(down := c.down[n..]), c.client.got + c.down[..n];
      if Probing(c) then ReadsProbe(c', got) else Reads(c', c.client.need, got)
    case Elsewhere(event) => c.(store := Step(c.store, event).0)
  }

  /** The one `recv` for the answer to a probe brings less than the whole answer. */
  ghost predicate Torn(c: Link, m: Move)
    requires CanMove(c, m)
  {
    m.ClientTake? && Probing(c) && |c.client.got| + m.n < c.client.need
  }

  /** A move as it is without torn answers to probes. */
  ghost predicate Smooth(c: Link, m: Move) {
    CanMove(c, m) && !Torn(c, m)
  }

  // --------------------------------------------------------------------- invariant

  function ToSend(client: Client): bytes {
    if client.Sending? then client.rest else []
  }

  function ToReply(handler: Handler): bytes {
    if handler.Replying? then handler.rest else []
  }

  /** The last request is on its way: its bytes are with the client, in the pipe or with the handler. */
  ghost predicate RequestInFlight(c: Link, query: bytes) {
    && 0 < |query| <= MAX_PACKET_SIZE
    && (c.client.Awaiting? || (c.client.Sending? && c.client.rest != [])) && c.down == []
    && match c.handler
       case Listening => c.up + ToSend(c.client) == Framed(query)
       case Taking(need, got) => need == |query| && |got| < need && got + (c.up + ToSend(c.client)) == query
       case _ => false
  }

  /** Its reply is on the way back. */
  ghost predicate ReplyInFlight(c: Link, data: bytes) {
    && 0 < |data| < TWO_64
    && (c.handler.Listening? || (c.handler.Replying? && c.handler.rest != [])) && c.up == []
    && match c.client
       case Awaiting => c.down + ToReply(c.handler) == Framed(data)
       case Reading(need, got) => need == |data| && |got| < need && got + (c.down + ToReply(c.handler)) == data
       case _ => false
  }

  ghost predicate Quiet(c: Link) {
    c.client.Idle? && c.handler.Listening? && c.up == [] && c.down == []
  }

  /** The k-th packet handled is the k-th query asked, and its reply is a frame with something in it. */
  ghost predicate HandledInOrder(c: Link) {
    && |c.handled| <= |c.asked|
    && forall k :: 0 <= k < |c.handled| ==>
        c.handled[k].packet == c.asked[k] && ReplyTo(c.handled[k]).Frame? && ReplyTo(c.handled[k]).data != []
  }

  /** The k-th response goes to the k-th query, and is the reply that the handler made for it. */
  ghost predicate AnsweredInOrder(c: Link) {
    && |c.answered| <= |c.handled| <= |c.asked|
    && forall k :: 0 <= k < |c.answered| ==>
        ReplyTo(c.handled[k]).Frame? && c.answered[k] == Answered(c.asked[k], ReplyTo(c.handled[k]).data)
  }

  ghost predicate InStep(c: Link) {
    && HandledInOrder(c) && AnsweredInOrder(c)
    && if |c.asked| == |c.answered| then Quiet(c)
       else if |c.handled| == |c.answered| then
         |c.asked| == |c.answered| + 1 && RequestInFlight(c, c.asked[|c.asked| - 1])
       else
         && |c.asked| == |c.handled| == |c.answered| + 1
         && ReplyInFlight(c, ReplyTo(c.handled[|c.handled| - 1]).data)
  }

  // ----------------------------------------------------------- bytes stay in order

  lemma Shift(a: bytes, b: bytes, n: nat)
    requires n <= |b|
    ensures (a + b[..n]) + b[n..] == a + b
  {}

  lemma FrontOf(a: bytes, b: bytes, n: nat, whole: bytes)
    requires n <= |a| && a + b == whole
    ensures |whole| >= n && whole[..n] == a[..n] && a[n..] + b == whole[n..]
  {}

  lemma TakeMore(got: bytes, a: bytes, b: bytes, n: nat)
    requires n <= |a|
    ensures (got + a[..n]) + (a[n..] + b) == got + (a + b)
  {}

  lemma FrameParts(data: bytes)
    requires |data| < TWO_64
    ensures ReadU64(Framed(data)[..8]) == |data| && Framed(data)[8..] == data
  {
    U64RoundTrip(|data|);
    assert Framed(data)[..8] == U64(|data|);
  }

  lemma SendKeepsRequest(c: Link, n: nat, query: bytes)
    requires RequestInFlight(c, query) && CanMove(c, ClientSend(n))
    ensures RequestInFlight(After(c, ClientSend(n)), query)
  {
    Shift(c.up, c.client.rest, n);
  }

  lemma HeadKeepsRequest(c: Link, query: bytes)
    requires RequestInFlight(c, query) && CanMove(c, HandlerHead)
    ensures RequestInFlight(After(c, HandlerHead), query)
  {
    FrontOf(c.up, ToSend(c.client), 8, Framed(query));
    FrameParts(query);
    assert [] + (c.up[8..] + ToSend(c.client)) == query;
  }

  lemma TakeKeepsRequest(c: Link, n: nat, o: Oracle, query: bytes)
    requires RequestInFlight(c, query) && CanMove(c, HandlerTake(n, o)) && |c.handler.got| + n < c.handler.need
    ensures RequestInFlight(After(c, HandlerTake(n, o)), query)
  {
    hide Handle, ReadRequest;
    TakeMore(c.handler.got, c.up, ToSend(c.client), n);
  }

  /** The packet is complete exactly when every byte of the query has been sent and taken. */
  lemma TakeCompletes(c: Link, n: nat, o: Oracle, query: bytes)
    requires RequestInFlight(c, query) && CanMove(c, HandlerTake(n, o)) && |c.handler.got| + n == c.handler.need
    ensures c.client.Awaiting? && c.up[n..] == [] && c.handler.got + c.up[..n] == query
  {
    TakeMore(c.handler.got, c.up, ToSend(c.client), n);
    var got, left := c.handler.got + c.up[..n], c.up[n..] + ToSend(c.client);
    assert |got + left| == |query| == |got|;
    assert left == [];
    assert got + [] == got;
  }

  lemma ReplyStarts(c: Link, n: nat, o: Oracle, query: bytes)
    requires RequestInFlight(c, query) && CanMove(c, HandlerTake(n, o)) && |c.handler.got| + n == c.handler.need
    ensures var c', h := After(c, HandlerTake(n, o)), Handled(query, c.store, o);
      && ReplyTo(h).Frame? && ReplyTo(h).data != [] && ReplyInFlight(c', ReplyTo(h).data)
      && c'.handled == c.handled + [h] && c'.asked == c.asked && c'.answered == c.answered
  {
    TakeCompletes(c, n, o, query);
    Connection.NoReplyIsEmpty(c.store, ReadRequest(query), o);
    hide Handle, ReadRequest;
    var data := ReplyTo(Handled(query, c.store, o)).data;
    assert [] + Framed(data) == Framed(data);
  }

  ghost predicate SameLogs(c: Link, c': Link) {
    c'.asked == c.asked && c'.handled == c.handled && c'.answered == c.answered
  }

  lemma SendKeepsReply(c: Link, n: nat, data: bytes)
    requires ReplyInFlight(c, data) && CanMove(c, HandlerSend(n))
    ensures ReplyInFlight(After(c, HandlerSend(n)), data) && SameLogs(c, After(c, HandlerSend(n)))
  {
    Shift(c.down, c.handler.rest, n);
  }

  /** LIVE is answered with OK on every branch. */
  lemma ProbeIsAnswered(h: Handled)
    requires h.packet == LIVE
    ensures ReplyTo(h) == StatusReply(OK)
  {
    EatTag(LIVE, []);
    assert LIVE + [] == LIVE;
    assert Eat(GTHR, LIVE).None? && Eat(CTHR, LIVE).None? && Eat(FTHR, LIVE).None? && Eat(CMSG, LIVE).None?
        && Eat(META, LIVE).None? by {
      assert LIVE[0] == 76;
    }
    assert ReadRequest(LIVE) == Live;
  }

  lemma LastProbeIsAnswered(c: Link)
    requires HandledInOrder(c) && |c.asked| == |c.handled| > 0
    ensures Probing(c) ==> ReplyTo(c.handled[|c.handled| - 1]) == StatusReply(OK)
  {
    if Probing(c) {
      ProbeIsAnswered(c.handled[|c.handled| - 1]);
    }
  }

  lemma OkStartsWithOk()
    ensures Eat(StatusText(OK), StatusText(OK)).Some?
  {}

  lemma HeadKeepsReply(c: Link, data: bytes)
    requires ReplyInFlight(c, data) && CanMove(c, ClientHead) && (Probing(c) ==> data == StatusText(OK))
    ensures ReplyInFlight(After(c, ClientHead), data) && SameLogs(c, After(c, ClientHead))
  {
    FrontOf(c.down, ToReply(c.handler), 8, Framed(data));
    FrameParts(data);
    assert [] + (c.down[8..] + ToReply(c.handler)) == data;
  }

  lemma TakeKeepsReply(c: Link, n: nat, data: bytes)
    requires ReplyInFlight(c, data) && Smooth(c, ClientTake(n)) && |c.client.got| + n < c.client.need
    ensures ReplyInFlight(After(c, ClientTake(n)), data) && SameLogs(c, After(c, ClientTake(n)))
  {
    TakeMore(c.client.got, c.down, ToReply(c.handler), n);
  }

  /** The response is complete exactly when every byte of the reply has been sent and read: all is quiet again. */
  lemma ReplyEnds(c: Link, n: nat, data: bytes)
    requires ReplyInFlight(c, data) && CanMove(c, ClientTake(n)) && |c.client.got| + n == c.client.need
    requires c.asked != [] && (Probing(c) ==> data == StatusText(OK))
    ensures var c' := After(c, ClientTake(n));
      && Quiet(c') && c'.answered == c.answered + [Answered(c.asked[|c.asked| - 1], data)]
      && c'.handled == c.handled && c'.asked == c.asked
  {
    TakeMore(c.client.got, c.down, ToReply(c.handler), n);
    var got, left := c.client.got + c.down[..n], c.down[n..] + ToReply(c.handler);
    assert |got + left| == |data| == |got|;
    assert left == [];
    assert got + [] == got;
    OkStartsWithOk();
  }

  // ------------------------------------------------------------------- every move

  lemma AskKeepsStep(c: Link, query: bytes)
    requires InStep(c) && CanMove(c, Ask(query))
    ensures InStep(After(c, Ask(query)))
  {
    hide ReplyTo;
    assert [] + Framed(query) == Framed(query);
  }

  lemma OneMoreHandled(c: Link, h: Handled, c': Link)
    requires HandledInOrder(c) && AnsweredInOrder(c) && |c.asked| == |c.answered| + 1 == |c.handled| + 1
    requires ReplyTo(h).Frame? && ReplyTo(h).data != [] && h.packet == c.asked[|c.asked| - 1]
    requires c'.handled == c.handled + [h] && c'.asked == c.asked && c'.answered == c.answered
    requires ReplyInFlight(c', ReplyTo(h).data)
    ensures InStep(c')
  {
    hide ReplyTo, ReplyInFlight;
  }

  lemma OneMoreAnswered(c: Link, data: bytes, c': Link)
    requires HandledInOrder(c) && AnsweredInOrder(c) && |c.asked| == |c.handled| == |c.answered| + 1
    requires ReplyTo(c.handled[|c.handled| - 1]) == Frame(data)
    requires c'.answered == c.answered + [Answered(c.asked[|c.asked| - 1], data)]
    requires c'.handled == c.handled && c'.asked == c.asked && Quiet(c')
    ensures InStep(c')
  {
    hide ReplyTo, Quiet;
  }

  lemma CompletedPacketKeepsStep(c: Link, n: nat, o: Oracle, query: bytes)
    requires HandledInOrder(c) && AnsweredInOrder(c) && RequestInFlight(c, query) && CanMove(c, HandlerTake(n, o))
    requires |c.asked| == |c.answered| + 1 == |c.handled| + 1 && c.asked[|c.asked| - 1] == query
    requires |c.handler.got| + n == c.handler.need
    ensures InStep(After(c, HandlerTake(n, o)))
  {
    hide ReplyTo, After, RequestInFlight, ReplyInFlight, HandledInOrder, AnsweredInOrder, InStep, Quiet;
    ReplyStarts(c, n, o, query);
    OneMoreHandled(c, Handled(query, c.store, o), After(c, HandlerTake(n, o)));
  }

  lemma RequestMoveKeepsStep(c: Link, m: Move, query: bytes)
    requires HandledInOrder(c) && AnsweredInOrder(c) && RequestInFlight(c, query) && CanMove(c, m)
    requires |c.asked| == |c.answered| + 1 == |c.handled| + 1 && c.asked[|c.asked| - 1] == query
    ensures InStep(After(c, m))
  {
    if m.HandlerTake? && |c.handler.got| + m.n == c.handler.need {
      CompletedPacketKeepsStep(c, m.n, m.oracle, query);
    } else {
      hide ReplyTo;
      match m
      case ClientSend(n) => SendKeepsRequest(c, n, query);
      case HandlerHead => HeadKeepsRequest(c, query);
      case HandlerTake(n, o) => TakeKeepsRequest(c, n, o, query);
      case _ =>
    }
  }

  lemma CompletedReplyKeepsStep(c: Link, n: nat, data: bytes)
    requires HandledInOrder(c) && AnsweredInOrder(c) && ReplyInFlight(c, data) && Smooth(c, ClientTake(n))
    requires |c.asked| == |c.handled| == |c.answered| + 1 && ReplyTo(c.handled[|c.handled| - 1]) == Frame(data)
    requires |c.client.got| + n == c.client.need
    ensures InStep(After(c, ClientTake(n)))
  {
    hide ReplyTo, After, RequestInFlight, ReplyInFlight, HandledInOrder, AnsweredInOrder, InStep, Quiet;
    LastProbeIsAnswered(c);
    ReplyEnds(c, n, data);
    OneMoreAnswered(c, data, After(c, ClientTake(n)));
  }

  lemma OthersWaitForTheReply(c: Link, m: Move, data: bytes)
    requires ReplyInFlight(c, data) && CanMove(c, m)
    ensures m.HandlerSend? || m.ClientHead? || m.ClientTake? || m.Elsewhere?
    ensures m.Elsewhere? ==> ReplyInFlight(After(c, m), data) && SameLogs(c, After(c, m))
  {
    hide ReplyTo, Step, Takes, Reads, ReadsProbe, Framed;
  }

  lemma MoveKeepsReply(c: Link, m: Move, data: bytes)
    requires HandledInOrder(c) && ReplyInFlight(c, data) && Smooth(c, m)
    requires |c.asked| == |c.handled| > 0 && ReplyTo(c.handled[|c.handled| - 1]) == Frame(data)
    requires m.ClientTake? ==> |c.client.got| + m.n < c.client.need
    ensures ReplyInFlight(After(c, m), data) && SameLogs(c, After(c, m))
  {
    LastProbeIsAnswered(c);
    OthersWaitForTheReply(c, m, data);
    hide ReplyTo, StatusText, After, CanMove, ReplyInFlight, SameLogs;
    match m
    case HandlerSend(n) => SendKeepsReply(c, n, data);
    case ClientHead => HeadKeepsReply(c, data);
    case ClientTake(n) => TakeKeepsReply(c, n, data);
    case Elsewhere(_) =>
  }

  lemma ReplyMoveKeepsStep(c: Link, m: Move, data: bytes)
    requires HandledInOrder(c) && AnsweredInOrder(c) && ReplyInFlight(c, data) && Smooth(c, m)
    requires |c.asked| == |c.handled| == |c.answered| + 1 && ReplyTo(c.handled[|c.handled| - 1]) == Frame(data)
    ensures InStep(After(c, m))
  {
    if m.ClientTake? && |c.client.got| + m.n == c.client.need {
      CompletedReplyKeepsStep(c, m.n, data);
    } else {
      MoveKeepsReply(c, m, data);
      hide ReplyTo, After, CanMove, ReplyInFlight, Smooth;
    }
  }

  lemma MoveKeepsStep(c: Link, m: Move)
    requires InStep(c) && Smooth(c, m)
    ensures InStep(After(c, m)) && !After(c, m).handler.Closed? && !After(c, m).client.Gone?
  {
    if |c.asked| == |c.answered| {
      if m.Ask? { AskKeepsStep(c, m.query); }
    } else if |c.handled| == |c.answered| {
      RequestMoveKeepsStep(c, m, c.asked[|c.asked| - 1]);
    } else {
      ReplyMoveKeepsStep(c, m, ReplyTo(c.handled[|c.handled| - 1]).data);
    }
  }

  lemma TornAnswerIsNotOk(c: Link, n: nat)
    requires InStep(c) && CanMove(c, ClientTake(n)) && Torn(c, ClientTake(n))
    ensures After(c, ClientTake(n)).client.Gone?
  {
    LastProbeIsAnswered(c);
    hide ReplyTo;
  }

  /** The client disconnects if and only if the one `recv` of a probe brings part of its answer. */
  lemma GivesUpOnlyOnTornProbe(c: Link, m: Move)
    requires InStep(c) && CanMove(c, m)
    ensures After(c, m).client.Gone? <==>
      && m.ClientTake? && |c.asked| > 0 && c.asked[|c.asked| - 1] == Api.Ascii("LIVE")
      && |c.client.got| + m.n < c.client.need
  {
    Api.Commands();
    hide Api.Ascii;
    if Torn(c, m) {
      TornAnswerIsNotOk(c, m.n);
    } else {
      MoveKeepsStep(c, m);
    }
  }

  // --------------------------------------------------------------------- whole runs

  ghost predicate CanRun(c: Link, ms: seq<Move>)
    decreases |ms|
  {
    ms == [] || (Smooth(c, ms[0]) && CanRun(After(c, ms[0]), ms[1..]))
  }

  ghost function AfterAll(c: Link, ms: seq<Move>): Link
    requires CanRun(c, ms)
    decreases |ms|
  {
    if ms == [] then c else AfterAll(After(c, ms[0]), ms[1..])
  }

  /** A connection as it is accepted. */
  function Connected(store: State): Link {
    Link(Idle, Listening, [], [], [], [], [], store)
  }

  lemma {:induction false} RunKeepsStep(c: Link, ms: seq<Move>)
    requires InStep(c) && CanRun(c, ms)
    ensures InStep(AfterAll(c, ms))
    decreases |ms|
  {
    if ms != [] {
      MoveKeepsStep(c, ms[0]);
      hide InStep, After, CanMove;
      RunKeepsStep(After(c, ms[0]), ms[1..]);
    }
  }

  /**
    In every interleaving at most one request is outstanding, the handler never drops the connection, every handled
    request was answered by one non-empty frame, and the k-th response is handed to the k-th query's parser.
   */
  lemma ResponsesMatchQueries(store: State, ms: seq<Move>)
    requires CanRun(Connected(store), ms)
    ensures var c := AfterAll(Connected(store), ms);
      && |c.answered| <= |c.handled| <= |c.asked| <= |c.answered| + 1 && !c.handler.Closed?
      && forall k :: 0 <= k < |c.answered| ==>
          && c.handled[k].packet == c.asked[k]
          && ReplyTo(c.handled[k]) == Frame(c.answered[k].response) && c.answered[k].response != []
          && c.answered[k].query == c.asked[k]
  {
    assert InStep(Connected(store));
    RunKeepsStep(Connected(store), ms);
    hide ReplyTo;
  }

  // ------------------------------------------------------- replies of the eager forum

  /** The packet that this move completes. */
  function Completed(c: Link, m: Move): Option<bytes> {
    if m.HandlerTake? && c.handler.Taking? && m.n <= |c.up| && |c.handler.got| + m.n == c.handler.need
    then Some(c.handler.got + c.up[..m.n])
    else None
  }

  /** What the move is for the forum. */
  function EventOf(c: Link, m: Move): Option<Event> {
    if Completed(c, m).Some? then Some(Packet(Completed(c, m).value, m.oracle))
    else if m.Elsewhere? then Some(m.event)
    else None
  }

  function ForumAfter(f: EagerForum, c: Link, m: Move): EagerForum {
    if EventOf(c, m).Some? then EagerStep(f, EventOf(c, m).value).0 else f
  }

  /** Other connections and the writers keep to the size limit and to what C defines; tokens are as they are drawn. */
  ghost predicate CleanMove(c: Link, m: Move) {
    match m
    case HandlerTake(_, o) => GoodToken(o.token)
    case Elsewhere(event) => CleanEvent(c.store, event)
    case _ => true
  }

  ghost predicate CleanLinkRun(c: Link, ms: seq<Move>)
    requires CanRun(c, ms)
    decreases |ms|
  {
    ms == [] || (CleanMove(c, ms[0]) && CleanLinkRun(After(c, ms[0]), ms[1..]))
  }

  /** The eager forum as it is each time this connection's handler handles a packet. */
  ghost function Forums(f: EagerForum, c: Link, ms: seq<Move>): seq<EagerForum>
    requires CanRun(c, ms)
    decreases |ms|
  {
    if ms == [] then [] else
    var fs := Forums(ForumAfter(f, c, ms[0]), After(c, ms[0]), ms[1..]);
    if Completed(c, ms[0]).Some? then [f] + fs else fs
  }

  /** The handler found this forum and answered as it would. */
  ghost predicate AnsweredBy(h: Handled, f: EagerForum) {
    && Simulates(h.before, f) && EndToEnd.BooleanFlags(f)
    && Some(ReplyTo(h)) == EagerStep(f, Packet(h.packet, h.oracle)).1
  }

  lemma CompletedIsClean(c: Link, m: Move)
    requires InStep(c) && CanMove(c, m) && Completed(c, m).Some? && CleanMove(c, m)
    ensures CleanEvent(c.store, EventOf(c, m).value) && EventOf(c, m).value.Packet?
    ensures After(c, m).store == Step(c.store, EventOf(c, m).value).0
    ensures After(c, m).handled == c.handled + [Handled(Completed(c, m).value, c.store, m.oracle)]
  {
    hide Handle, ReadRequest;
  }

  lemma NotCompleted(c: Link, m: Move)
    requires CanMove(c, m) && Completed(c, m).None? && CleanMove(c, m)
    ensures After(c, m).handled == c.handled
    ensures if EventOf(c, m).None? then After(c, m).store == c.store
            else CleanEvent(c.store, EventOf(c, m).value) && After(c, m).store == Step(c.store, EventOf(c, m).value).0
  {
    hide Handle, ReadRequest;
  }

  lemma LessRoom(f: EagerForum, k: nat)
    requires Room(f, k + 1)
    ensures Room(f, k)
  {}

  lemma MoveFollowsForum(f: EagerForum, c: Link, m: Move, k: nat)
    requires InStep(c) && CanMove(c, m) && CleanMove(c, m)
    requires Simulates(c.store, f) && EndToEnd.BooleanFlags(f) && Room(f, k + 1)
    ensures var f' := ForumAfter(f, c, m);
      Simulates(After(c, m).store, f') && EndToEnd.BooleanFlags(f') && Room(f', k)
    ensures After(c, m).handled
         == c.handled + if Completed(c, m).Some? then [Handled(Completed(c, m).value, c.store, m.oracle)] else []
    ensures Completed(c, m).Some? ==> AnsweredBy(Handled(Completed(c, m).value, c.store, m.oracle), f)
  {
    if Completed(c, m).Some? { CompletedIsClean(c, m); } else { NotCompleted(c, m); }
    if EventOf(c, m).Some? {
      var e := EventOf(c, m).value;
      hide After, CanMove, InStep, CleanMove, CleanEvent, Simulates, EndToEnd.BooleanFlags, Room;
      SimStep(c.store, f, e, k);
      EndToEnd.StepKeepsFlags(f, e);
    } else {
      LessRoom(f, k);
    }
  }

  /** The packets handled since then were each answered by the forum of its turn. */
  ghost predicate Follows(before: seq<Handled>, hs: seq<Handled>, fs: seq<EagerForum>) {
    && |hs| == |before| + |fs| && hs[..|before|] == before
    && forall k :: 0 <= k < |fs| ==> AnsweredBy(hs[|before| + k], fs[k])
  }

  lemma FollowsOne(before: seq<Handled>, h: Handled, hs: seq<Handled>, f: EagerForum, fs: seq<EagerForum>)
    requires Follows(before + [h], hs, fs) && AnsweredBy(h, f)
    ensures Follows(before, hs, [f] + fs)
  {
    hide AnsweredBy;
    assert hs[..|before|] == (before + [h])[..|before|];
    assert hs[|before|] == (before + [h])[|before|];
    forall k | 0 <= k < |fs| + 1 ensures AnsweredBy(hs[|before| + k], ([f] + fs)[k]) {
      if k > 0 {
        assert AnsweredBy(hs[|before + [h]| + (k - 1)], fs[k - 1]);
      }
    }
  }

  /**
    Byte for byte the eager forum's replies, whatever other connections and the writers do in between: each packet of
    this connection is answered as the forum answers it that has seen every event so far.
   */
  lemma {:induction false} LinkRefinesEagerForum(f: EagerForum, c: Link, ms: seq<Move>)
    requires InStep(c) && CanRun(c, ms) && CleanLinkRun(c, ms)
    requires Simulates(c.store, f) && EndToEnd.BooleanFlags(f) && Room(f, |ms|)
    ensures Follows(c.handled, AfterAll(c, ms).handled, Forums(f, c, ms))
    decreases |ms|
  {
    if ms != [] {
      var m, rest := ms[0], ms[1..];
      assert CanMove(c, m);
      hide Simulates, EndToEnd.BooleanFlags, AnsweredBy, Room, InStep, After, ForumAfter, Completed, Follows, CleanMove,
        CanMove, Torn;
      MoveKeepsStep(c, m);
      MoveFollowsForum(f, c, m, |ms| - 1);
      LinkRefinesEagerForum(ForumAfter(f, c, m), After(c, m), rest);
      if Completed(c, m).Some? {
        FollowsOne(c.handled, Handled(Completed(c, m).value, c.store, m.oracle), AfterAll(c, ms).handled,
                   f, Forums(ForumAfter(f, c, m), After(c, m), rest));
      }
    }
  }

  /** The k-th response read as a GTHR reply is the thread asked for, as the forum was when it was handled. */
  lemma ResponseIsTheThread(store: State, f: EagerForum, ms: seq<Move>, k: nat, id: u64, random: u64)
    requires Simulates(store, f) && EndToEnd.BooleanFlags(f) && Room(f, |ms|)
    requires CanRun(Connected(store), ms) && CleanLinkRun(Connected(store), ms)
    requires k < |AfterAll(Connected(store), ms).answered|
    requires AfterAll(Connected(store), ms).answered[k].query == GetRequest(id)
    ensures var c, fs := AfterAll(Connected(store), ms), Forums(f, Connected(store), ms);
      && k < |fs| == |c.handled|
      && var got := ReadGetReply(c.answered[k].response, random);
         && (got.Got? <==> HasId(fs[k].threads, id))
         && forall i :: 0 <= i < |fs[k].threads| && fs[k].threads[i].id == id && got.Got? ==>
              EndToEnd.Mirrors(got.value, fs[k].threads[i], c.handled[k].oracle.pads)
  {
    assert InStep(Connected(store));
    ResponsesMatchQueries(store, ms);
    LinkRefinesEagerForum(f, Connected(store), ms);
    var c, fs := AfterAll(Connected(store), ms), Forums(f, Connected(store), ms);
    assert Follows([], c.handled, fs) && AnsweredBy(c.handled[k], fs[k]);
    hide Simulates, EndToEnd.Mirrors, EndToEnd.BooleanFlags, ReadGetReply, AfterAll, CanRun, Handle, Forums;
    EndToEnd.GetEndToEnd(c.handled[k].before, fs[k], id, c.handled[k].oracle, random);
  }

  // ----------------------------------------------------------------------- progress

  /** 2 while a request is on its way, 1 while a reply is, 0 when there is nothing to do. */
  function Stage(c: Link): nat {
    if |c.asked| == |c.answered| then 0 else if |c.handled| == |c.answered| then 2 else 1
  }

  /** How far the bytes of that request or reply still have to go. */
  function Distance(c: Link): nat {
    2 * |ToSend(c.client)| + |c.up| + 2 * |ToReply(c.handler)| + |c.down|
  }

  /** Every move of client or handler brings the response nearer; what happens elsewhere does not matter. */
  lemma MovesBringTheResponseNearer(c: Link, m: Move)
    requires InStep(c) && CanMove(c, m) && !m.Ask?
    ensures var c' := After(c, m);
      if m.Elsewhere? then Stage(c') == Stage(c) && Distance(c') == Distance(c)
      else Stage(c') < Stage(c) || (Stage(c') == Stage(c) && Distance(c') < Distance(c))
  {
    hide ReplyTo, HandledInOrder, AnsweredInOrder;
  }

  function NextMove(c: Link, o: Oracle): Move
    requires c.client.Reading? ==> |c.client.got| <= c.client.need
  {
    if c.client.Sending? then ClientSend(1)
    else if c.handler.Taking? then HandlerTake(1, o)
    else if c.handler.Replying? then HandlerSend(1)
    else if c.client.Reading? then ClientTake(if Probing(c) then c.client.need - |c.client.got| else 1)
    else if |c.up| >= 8 then HandlerHead
    else ClientHead
  }

  /** The handler's answer to this packet, now, is one that C defines. */
  ghost predicate Answerable(c: Link, o: Oracle) {
    c.asked != [] ==>
      var r := Handle(c.store, ReadRequest(c.asked[|c.asked| - 1]), o).1; r.Frame? && |r.data| < TWO_64
  }

  lemma RequestTaken(c: Link, query: bytes, o: Oracle)
    requires RequestInFlight(c, query) && c.handler.Taking? && !c.client.Sending?
    requires var r := Handle(c.store, ReadRequest(query), o).1; r.Frame? && |r.data| < TWO_64
    ensures CanMove(c, HandlerTake(1, o))
  {
    hide Handle, ReadRequest;
    assert c.up + [] == c.up;
    if |c.handler.got| + 1 == c.handler.need {
      assert c.up[..1] == c.up;
    }
  }

  lemma NeedsMore(c: Link)
    requires InStep(c) && c.client.Reading?
    ensures |c.client.got| < c.client.need
  {}

  /** Nobody waits for ever: until the response is complete, client or handler can move. */
  lemma SomeoneCanMove(c: Link, o: Oracle)
    requires InStep(c) && !Quiet(c) && Answerable(c, o)
    ensures c.client.Reading? ==> |c.client.got| < c.client.need
    ensures Smooth(c, NextMove(c, o))
  {
    if c.client.Reading? {
      NeedsMore(c);
    }
    var m := NextMove(c, o);
    if m.HandlerTake? {
      var query := c.asked[|c.asked| - 1];
      RequestTaken(c, query, o);
    }
  }

  // ---------------------------------------------------------------------- any cutting

  function Sum(cuts: seq<nat>): nat {
    if cuts == [] then 0 else cuts[0] + Sum(cuts[1..])
  }

  function Sends(cuts: seq<nat>): seq<Move> {
    if cuts == [] then [] else [ClientSend(cuts[0])] + Sends(cuts[1..])
  }

  function Answers(cuts: seq<nat>): seq<Move> {
    if cuts == [] then [] else [HandlerSend(cuts[0])] + Answers(cuts[1..])
  }

  ghost predicate Cutting(cuts: seq<nat>, whole: bytes) {
    cuts != [] && Sum(cuts) == |whole| && forall k :: 0 <= k < |cuts| ==> cuts[k] > 0
  }

  lemma CuttingRest(cuts: seq<nat>, whole: bytes)
    requires Cutting(cuts, whole)
    ensures 0 < cuts[0] <= |whole| && (cuts[0] < |whole| <==> cuts[1..] != [])
    ensures cuts[1..] != [] ==> Cutting(cuts[1..], whole[cuts[0]..])
  {
    if cuts[1..] != [] {
      assert cuts[1..][0] == cuts[1] > 0 && Sum(cuts[1..]) >= cuts[1..][0];
    }
  }

  /** However a request is cut into pieces it can go out so, and arrives as it was. */
  lemma {:induction false} AnyCuttingIsSent(c: Link, cuts: seq<nat>)
    requires c.client.Sending? && Cutting(cuts, c.client.rest)
    ensures CanRun(c, Sends(cuts))
    ensures AfterAll(c, Sends(cuts)) == c.(client := Awaiting, up := c.up + c.client.rest)
    decreases |cuts|
  {
    var n, rest := cuts[0], c.client.rest;
    CuttingRest(cuts, rest);
    var c1 := After(c, ClientSend(n));
    assert Sends(cuts)[1..] == Sends(cuts[1..]);
    if cuts[1..] == [] {
      assert rest[..n] == rest && rest[n..] == [];
      assert AfterAll(c1, []) == c1;
    } else {
      AnyCuttingIsSent(c1, cuts[1..]);
      Shift(c.up, rest, n);
    }
  }

  /** And so can a reply. */
  lemma {:induction false} AnyCuttingIsAnswered(c: Link, cuts: seq<nat>)
    requires c.handler.Replying? && Cutting(cuts, c.handler.rest)
    ensures CanRun(c, Answers(cuts))
    ensures AfterAll(c, Answers(cuts)) == c.(handler := Listening, down := c.down + c.handler.rest)
    decreases |cuts|
  {
    var n, rest := cuts[0], c.handler.rest;
    CuttingRest(cuts, rest);
    var c1 := After(c, HandlerSend(n));
    assert Answers(cuts)[1..] == Answers(cuts[1..]);
    if cuts[1..] == [] {
      assert rest[..n] == rest && rest[n..] == [];
      assert AfterAll(c1, []) == c1;
    } else {
      AnyCuttingIsAnswered(c1, cuts[1..]);
      Shift(c.down, rest, n);
    }
  }

  /** The handler hangs up on a size field exactly when a turn of `handle_client` does. */
  lemma HeadAgreesWithTurn(c: Link, size: u64, body: bytes, plan: Plan, k: nat)
    requires c.handler.Listening? && c.up == U64(size) + body && body != [] && plan(k) >= 8 && plan(k + 1) > 0
    ensures CanMove(c, HandlerHead)
    ensures After(c, HandlerHead).handler.Closed? <==> !Connection.Incoming(plan, k, c.up, 1048576).open
    ensures After(c, HandlerHead).handler.Closed? <==> !(0 < size <= 1048576)
  {
    Connection.OpenExactly(plan, k, size, body, 1048576);
    U64RoundTrip(size);
    assert c.up[..8] == U64(size);
    hide Connection.Incoming;
  }

  /** Writers and other connections need not wait for this one. */
  lemma OthersMoveAnyTime(c: Link, event: Event)
    requires !event.Restart?
    ensures CanRun(c, [Elsewhere(event)])
    ensures AfterAll(c, [Elsewhere(event)]) == c.(store := Step(c.store, event).0)
  {
    assert [Elsewhere(event)][1..] == [];
    hide Step;
  }

  /** The moves of one exchange in the largest pieces. */
  function OneExchange(query: bytes, response: bytes, o: Oracle): seq<Move> {
    [Ask(query)] + ([ClientSend(8 + |query|)] + ([HandlerHead] + ([HandlerTake(|query|, o)]
      + ([HandlerSend(8 + |response|)] + ([ClientHead] + ([ClientTake(|response|)] + []))))))
  }

  lemma MoveThenRun(c: Link, m: Move, ms: seq<Move>)
    requires Smooth(c, m) && CleanMove(c, m) && CanRun(After(c, m), ms) && CleanLinkRun(After(c, m), ms)
    ensures CanRun(c, [m] + ms) && CleanLinkRun(c, [m] + ms)
    ensures AfterAll(c, [m] + ms) == AfterAll(After(c, m), ms)
  {
    assert ([m] + ms)[1..] == ms;
    hide After, CanMove, CleanMove, Torn;
  }

  /** Handler and client once the query is in the pipe. */
  lemma QueryArrives(c: Link, query: bytes)
    requires Quiet(c) && 0 < |query| <= MAX_PACKET_SIZE
    ensures Smooth(c, Ask(query)) && CleanMove(c, Ask(query))
    ensures var c1 := After(c, Ask(query));
      && Smooth(c1, ClientSend(8 + |query|)) && CleanMove(c1, ClientSend(8 + |query|))
      && After(c1, ClientSend(8 + |query|))
           == c.(client := Awaiting, up := Framed(query), asked := c.asked + [query])
  {
    assert Framed(query)[..8 + |query|] == Framed(query) && Framed(query)[8 + |query|..] == [];
    assert [] + Framed(query) == Framed(query);
  }

  lemma QueryIsHandled(c: Link, query: bytes, o: Oracle)
    requires c.client.Awaiting? && c.handler.Listening? && c.up == Framed(query) && 0 < |query| <= MAX_PACKET_SIZE
    requires GoodToken(o.token)
    requires var r := Handle(c.store, ReadRequest(query), o).1; r.Frame? && |r.data| < TWO_64
    ensures Smooth(c, HandlerHead) && CleanMove(c, HandlerHead)
    ensures var c1, h := After(c, HandlerHead), Handled(query, c.store, o);
      && Smooth(c1, HandlerTake(|query|, o)) && CleanMove(c1, HandlerTake(|query|, o))
      && After(c1, HandlerTake(|query|, o))
           == c.(up := [], handler := Replying(Framed(ReplyTo(h).data)), handled := c.handled + [h],
                 store := Handle(c.store, ReadRequest(query), o).0)
  {
    hide Handle, ReadRequest;
    FrameParts(query);
    assert query[..|query|] == query && query[|query|..] == [] && [] + query == query;
  }

  lemma ResponseArrives(c: Link, data: bytes)
    requires c.client.Awaiting? && c.handler.Replying? && c.handler.rest == Framed(data) && c.down == []
    requires 0 < |data| < TWO_64 && c.asked != [] && (Probing(c) ==> data == StatusText(OK))
    ensures var m1, m2, m3 := HandlerSend(8 + |data|), ClientHead, ClientTake(|data|);
      && Smooth(c, m1) && CleanMove(c, m1)
      && Smooth(After(c, m1), m2) && CleanMove(After(c, m1), m2)
      && Smooth(After(After(c, m1), m2), m3) && CleanMove(After(After(c, m1), m2), m3)
      && After(After(After(c, m1), m2), m3)
           == c.(client := Idle, handler := Listening,
                 answered := c.answered + [Answered(c.asked[|c.asked| - 1], data)])
  {
    OkStartsWithOk();
    FrameParts(data);
    assert Framed(data)[..8 + |data|] == Framed(data) && Framed(data)[8 + |data|..] == [];
    assert [] + Framed(data) == Framed(data);
    assert data[..|data|] == data && data[|data|..] == [] && [] + data == data;
  }

  /** On a quiet connection any query with a defined answer is asked, handled and answered. */
  lemma AnyQueryIsAnswered(c: Link, query: bytes, o: Oracle)
    requires InStep(c) && Quiet(c) && 0 < |query| <= 1048576 && GoodToken(o.token)
    requires var r := Handle(c.store, ReadRequest(query), o).1; r.Frame? && |r.data| < TWO_64
    ensures var h := Handled(query, c.store, o);
      var ms := OneExchange(query, ReplyTo(h).data, o);
      && CanRun(c, ms) && CleanLinkRun(c, ms)
      && AfterAll(c, ms) == c.(asked := c.asked + [query], handled := c.handled + [h],
                               answered := c.answered + [Answered(query, ReplyTo(h).data)],
                               store := Handle(c.store, ReadRequest(query), o).0)
  {
    var h := Handled(query, c.store, o);
    var data := ReplyTo(h).data;
    if query == LIVE { ProbeIsAnswered(h); }
    Connection.NoReplyIsEmpty(c.store, ReadRequest(query), o);
    assert Quiet(c) && c.client == Idle && c.handler == Listening && c.up == [] && c.down == [];
    ExchangeIs(query, data, o);
    hide *;
    QueryArrives(c, query);
    var c1 := After(c, Ask(query));
    var c2 := After(c1, ClientSend(8 + |query|));
    QueryIsHandled(c2, query, o);
    var c3 := After(c2, HandlerHead);
    var c4 := After(c3, HandlerTake(|query|, o));
    LastIsProbe(c, query);
    assert c4.asked == c.asked + [query];
    ResponseArrives(c4, data);
    var c5 := After(c4, HandlerSend(8 + |data|));
    var c6 := After(c5, ClientHead);
    NothingLeft(After(c6, ClientTake(|data|)));
    var m6 := [ClientTake(|data|)] + [];
    MoveThenRun(c6, ClientTake(|data|), []);
    MoveThenRun(c5, ClientHead, m6);
    var m5 := [ClientHead] + m6;
    MoveThenRun(c4, HandlerSend(8 + |data|), m5);
    var m4 := [HandlerSend(8 + |data|)] + m5;
    MoveThenRun(c3, HandlerTake(|query|, o), m4);
    var m3 := [HandlerTake(|query|, o)] + m4;
    MoveThenRun(c2, HandlerHead, m3);
    var m2 := [HandlerHead] + m3;
    MoveThenRun(c1, ClientSend(8 + |query|), m2);
    MoveThenRun(c, Ask(query), [ClientSend(8 + |query|)] + m2);
  }

  lemma LastIsProbe(c: Link, query: bytes)
    ensures forall c': Link :: c'.asked == c.asked + [query] ==> (Probing(c') <==> query == LIVE)
  {}

  lemma NothingLeft(c: Link)
    ensures CanRun(c, []) && CleanLinkRun(c, []) && AfterAll(c, []) == c
  {}

  lemma ExchangeIs(query: bytes, data: bytes, o: Oracle)
    ensures OneExchange(query, data, o)
         == [Ask(query)] + ([ClientSend(8 + |query|)] + ([HandlerHead] + ([HandlerTake(|query|, o)]
              + ([HandlerSend(8 + |data|)] + ([ClientHead] + ([ClientTake(|data|)] + []))))))
  {}
}
