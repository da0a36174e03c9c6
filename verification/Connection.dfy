/** One connection: a turn of `handle_client` on the server, a turn of `query_loop` on the client. */
module Connection {
  import opened Bytes
  import opened Forum
  import opened Wire
  import opened Store
  import opened Communication
  import opened Server

  /** What a variable set to zero holds after one `recv` of eight bytes that brought only some of them. */
  function SizeFrom(head: bytes): u64
    requires |head| <= 8
  {
    ReadU64(head + Zeros(8 - |head|))
  }

  lemma SizeFromWhole(n: u64, rest: bytes)
    ensures SizeFrom((U64(n) + rest)[..8]) == n && (U64(n) + rest)[8..] == rest
  {
    U64RoundTrip(n);
    assert (U64(n) + rest)[..8] == U64(n);
    assert U64(n) + Zeros(0) == U64(n);
  }

  function AtLeastZero(n: int): nat {
    if n < 0 then 0 else n
  }

  function Min(a: nat, b: nat): nat {
    if a <= b then a else b
  }

  /** How many of `size` bytes one call moves. */
  function OneCall(plan: Plan, k: nat, size: nat): (n: nat)
    ensures n <= size
  {
    AtLeastZero(Granted(plan(k), size))
  }

  // ------------------------------------------------------------------------ receiving

  /** The outcome of reading one frame: nothing when it is too large, empty or cut off before its first byte. */
  datatype Received = Received(open: bool, packet: bytes, left: bytes)

  function Incoming(plan: Plan, k: nat, wire: bytes, limit: nat): Received {
    var n := OneCall(plan, k, Min(8, |wire|));
    var size, rest := SizeFrom(wire[..n]), wire[n..];
    if size > limit then Received(false, [], rest)
    else var m := Moved(plan, k + 1, Min(size, |rest|)); Received(m > 0, rest[..m], rest[m..])
  }

  /** A whole size field and then the bytes in any pieces: exactly the frame is taken off the wire. */
  lemma IncomingFrame(plan: Plan, k: nat, data: bytes, rest: bytes, limit: nat)
    requires 0 < |data| <= limit && |data| < TWO_64 && plan(k) >= 8 && AllPositive(plan, k + 1, |data|)
    ensures Incoming(plan, k, Framed(data) + rest, limit) == Received(true, data, rest)
  {
    assert Framed(data) + rest == U64(|data|) + (data + rest);
    SizeFromWhole(|data|, data + rest);
    MovesAll(plan, k + 1, |data|);
    assert (data + rest)[..|data|] == data && (data + rest)[|data|..] == rest;
  }

  /** A frame above the limit ends the connection before any of it is read. */
  lemma IncomingTooLarge(plan: Plan, k: nat, data: bytes, rest: bytes, limit: nat)
    requires limit < |data| < TWO_64 && plan(k) >= 8
    ensures Incoming(plan, k, Framed(data) + rest, limit) == Received(false, [], data + rest)
  {
    assert Framed(data) + rest == U64(|data|) + (data + rest);
    SizeFromWhole(|data|, data + rest);
  }

  /**
    Whether the connection goes on after a whole size field: exactly when the size is within the limit and at least
    one byte of the body comes.
   */
  lemma OpenExactly(plan: Plan, k: nat, size: u64, body: bytes, limit: nat)
    requires plan(k) >= 8
    ensures Incoming(plan, k, U64(size) + body, limit).open <==> 0 < size <= limit && body != [] && plan(k + 1) > 0
    ensures Incoming(plan, k, U64(size) + body, limit).open <==> Incoming(plan, k, U64(size) + body, limit).packet != []
  {
    SizeFromWhole(size, body);
  }

  /** A frame cut off after some of its bytes is handled as those bytes; cut off before the first it ends the turn. */
  lemma IncomingCut(plan: Plan, k: nat, data: bytes, j: nat, limit: nat)
    requires |data| <= limit && |data| < TWO_64 && j <= |data| && plan(k) >= 8 && AllPositive(plan, k + 1, j)
    ensures Incoming(plan, k, U64(|data|) + data[..j], limit) == Received(j > 0, data[..j], [])
  {
    SizeFromWhole(|data|, data[..j]);
    MovesAll(plan, k + 1, j);
    assert data[..j][..j] == data[..j] && data[..j][j..] == [];
  }

  /** A client that is gone, and a size field of which nothing comes, end the turn. */
  lemma IncomingNothing(plan: Plan, k: nat, wire: bytes, limit: nat)
    requires wire == [] || plan(k) <= 0
    ensures Incoming(plan, k, wire, limit) == Received(false, [], wire)
  {
    ZeroSize();
    assert wire[0..] == wire;
  }

  lemma ZeroSize()
    ensures SizeFrom([]) == 0
  {
    assert [] + Zeros(8) == Zeros(8);
    LeOfZero(8);
    U64RoundTrip(0);
  }

  lemma {:induction false} LeOfZero(width: nat)
    ensures Le(0, width) == Zeros(width)
  {
    if width > 0 {
      LeOfZero(width - 1);
      assert Zeros(width) == [0] + Zeros(width - 1);
    }
  }

  /** `recv` of the size field into a variable that was zero. */
  method ReceiveSize(pipe: Pipe) returns (size: u64)
    modifies pipe
    ensures var n := OneCall(pipe.recvPlan, old(pipe.recvs), Min(8, |old(pipe.wire)|));
      size == SizeFrom(old(pipe.wire)[..n]) && pipe.wire == old(pipe.wire)[n..]
    ensures pipe.recvs == old(pipe.recvs) + 1 && pipe.sends == old(pipe.sends)
  {
    var buf := new byte[8](_ => 0);
    ghost var wire := pipe.wire;
    var n := pipe.Recv(buf, 0, 8);
    size := ReadU64(buf[..]);
    if n > 0 {
      assert buf[..] == wire[..n] + Zeros(8 - n);
    } else {
      assert buf[..] == [] + Zeros(8) && wire[..0] == [];
    }
  }

  /** The receiving half of a turn: size, limit, bytes, and a NUL after them. */
  method ReceivePacket(pipe: Pipe, clData: array<byte>) returns (open: bool, packet: bytes)
    requires clData.Length == MAX_PACKET_SIZE + 1
    modifies pipe, clData
    ensures Received(open, packet, pipe.wire)
         == Incoming(pipe.recvPlan, old(pipe.recvs), old(pipe.wire), MAX_PACKET_SIZE)
    ensures |packet| <= 1048576 && (open ==> clData[..|packet| + 1] == packet + [0])
    ensures open <==> packet != []
    ensures old(pipe.wire) == [] ==> !open
    ensures pipe.sends == old(pipe.sends)
  {
    OpenHasPacket(pipe.recvPlan, pipe.recvs, pipe.wire, MAX_PACKET_SIZE);
    var size := ReceiveSize(pipe);
    if size > MAX_PACKET_SIZE {
      return false, [];
    }
    ghost var rest := pipe.wire;
    var received := SRecv(pipe, clData, size);
    assert clData[..received] == rest[..received];
    if received <= 0 {
      return false, [];
    }
    clData[received] := 0;
    open, packet := true, clData[..received];
    assert clData[..received + 1] == packet + [0];
  }

  // -------------------------------------------------------------------------- sending

  /** What goes out for a frame: the size field by one call, the bytes by one call or by `s_send`. */
  function Outgoing(plan: Plan, k: nat, data: bytes, oneCall: bool): bytes {
    var m := if oneCall then OneCall(plan, k + 1, |data|) else Moved(plan, k + 1, |data|);
    U64(|data|)[..OneCall(plan, k, 8)] + data[..m]
  }

  /** Data may go out in any pieces; the size field and a bare status must be taken whole. */
  lemma OutgoingFrame(plan: Plan, k: nat, data: bytes, oneCall: bool)
    requires plan(k) >= 8
    requires if oneCall then plan(k + 1) >= |data| else AllPositive(plan, k + 1, |data|)
    ensures Outgoing(plan, k, data, oneCall) == Framed(data)
  {
    if !oneCall {
      MovesAll(plan, k + 1, |data|);
    }
    assert U64(|data|)[..8] == U64(|data|) && data[..|data|] == data;
  }

  method ToArray(data: bytes) returns (buf: array<byte>)
    ensures fresh(buf) && buf[..] == data
  {
    buf := new byte[|data|](i requires 0 <= i < |data| => data[i]);
  }

  method SendSize(pipe: Pipe, size: nat)
    modifies pipe
    ensures pipe.wire == old(pipe.wire) + U64(size)[..OneCall(pipe.sendPlan, old(pipe.sends), 8)]
    ensures pipe.sends == old(pipe.sends) + 1 && pipe.recvs == old(pipe.recvs)
  {
    var buf := ToArray(U64(size));
    var n := pipe.Send(buf, 0, 8);
    assert buf[0..AtLeastZero(n)] == U64(size)[..AtLeastZero(n)];
  }

  /** The size, then the data by `s_send`. */
  method SendData(pipe: Pipe, data: bytes)
    modifies pipe
    ensures pipe.wire == old(pipe.wire) + Outgoing(pipe.sendPlan, old(pipe.sends), data, false)
    ensures pipe.recvs == old(pipe.recvs)
  {
    SendSize(pipe, |data|);
    var buf := ToArray(data);
    var m := SSend(pipe, buf, |data|);
    assert buf[..m] == data[..m];
  }

  /** The size, then the status text by a single `send`. */
  method SendStatus(pipe: Pipe, status: Status)
    modifies pipe
    ensures pipe.wire == old(pipe.wire) + Outgoing(pipe.sendPlan, old(pipe.sends), StatusText(status), true)
    ensures pipe.recvs == old(pipe.recvs)
  {
    var text := StatusText(status);
    hide StatusText, U64;
    SendSize(pipe, |text|);
    var buf := ToArray(text);
    var m := pipe.Send(buf, 0, |text|);
    assert buf[0..AtLeastZero(m)] == text[..AtLeastZero(m)];
  }

  lemma StatusIsShort(status: Status)
    ensures |StatusText(status)| <= 4
  {}

  method SendResult(pipe: Pipe, r: CommandResult) returns (ghost oneCall: bool)
    modifies pipe
    ensures FrameOf(r).Frame? ==>
      pipe.wire == old(pipe.wire) + Outgoing(pipe.sendPlan, old(pipe.sends), FrameOf(r).data, oneCall)
    ensures oneCall ==> FrameOf(r).Frame? && |FrameOf(r).data| <= 4
    ensures pipe.recvs == old(pipe.recvs)
  {
    oneCall := false;
    match r
    case UndefinedResult =>
    case CommandResult(data, status) =>
      if data == [] {
        oneCall := true;
        StatusIsShort(status);
        SendStatus(pipe, status);
      } else {
        SendData(pipe, data);
      }
  }

  // ------------------------------------------------------------------------ the turns

  /** The oracle of the handler, and whether its reply was a bare status. */
  datatype Turn = Turn(oracle: Oracle, oneCall: bool)

  /** Answering one packet. */
  method ServePacket(down: Pipe, server: LeServer, packet: bytes, o0: Oracle) returns (ghost turn: Turn)
    requires server.Valid() && server.nextId + 1 < TWO_64 && |o0.token| == TOKEN_SIZE
    modifies down, server, server.threads, server.disk
    ensures server.Valid() && SameInputs(o0, turn.oracle)
    ensures server.Snapshot() == Handle(old(server.Snapshot()), ReadRequest(packet), turn.oracle).0
    ensures var r := Handle(old(server.Snapshot()), ReadRequest(packet), turn.oracle).1;
      r.Frame? ==>
        && down.wire == old(down.wire) + Outgoing(down.sendPlan, old(down.sends), r.data, turn.oneCall)
        && (turn.oneCall ==> |r.data| <= 4)
    ensures down.recvs == old(down.recvs)
  {
    hide Handle, ReadRequest, Outgoing, FrameOf;
    ghost var s, oracle := server.Snapshot(), o0;
    var r;
    r, oracle := server.QueryProcess(packet, o0);
    ghost var oneCall := SendResult(down, r);
    assert (server.Snapshot(), FrameOf(r)) == Handle(s, ReadRequest(packet), oracle);
    turn := Turn(oracle, oneCall);
  }

  lemma OpenHasPacket(plan: Plan, k: nat, wire: bytes, limit: nat)
    ensures Incoming(plan, k, wire, limit).open <==> Incoming(plan, k, wire, limit).packet != []
    ensures wire == [] ==> !Incoming(plan, k, wire, limit).open
    ensures |Incoming(plan, k, wire, limit).packet| <= limit
  {
    if wire == [] {
      IncomingNothing(plan, k, wire, limit);
    }
  }

  /** A turn of `handle_client`: one frame in, the handler, one frame out; or the end of the connection. */
  method HandleTurn(up: Pipe, down: Pipe, server: LeServer, clData: array<byte>, o0: Oracle)
    returns (open: bool, ghost turn: Turn)
    requires up != down && clData.Length == MAX_PACKET_SIZE + 1
    requires server.Valid() && server.nextId + 1 < TWO_64 && |o0.token| == TOKEN_SIZE
    modifies up, down, clData, server, server.threads, server.disk
    ensures server.Valid() && SameInputs(o0, turn.oracle)
    ensures open == Incoming(up.recvPlan, old(up.recvs), old(up.wire), MAX_PACKET_SIZE).open
    ensures up.wire == Incoming(up.recvPlan, old(up.recvs), old(up.wire), MAX_PACKET_SIZE).left
    ensures up.sends == old(up.sends) && down.recvs == old(down.recvs)
    ensures !open ==> server.Snapshot() == old(server.Snapshot()) && down.wire == old(down.wire)
    ensures old(up.wire) == [] ==> !open
    ensures open ==> 0 < |Incoming(up.recvPlan, old(up.recvs), old(up.wire), MAX_PACKET_SIZE).packet| <= 1048576
    ensures open ==>
      var packet := Incoming(up.recvPlan, old(up.recvs), old(up.wire), MAX_PACKET_SIZE).packet;
      var (s', r) := Handle(old(server.Snapshot()), ReadRequest(packet), turn.oracle);
      && server.Snapshot() == s'
      && (r.Frame? ==>
           && down.wire == old(down.wire) + Outgoing(down.sendPlan, old(down.sends), r.data, turn.oneCall)
           && (turn.oneCall ==> |r.data| <= 4))
  {
    hide Handle, ReadRequest, Outgoing, Incoming;
    var packet;
    OpenHasPacket(up.recvPlan, up.recvs, up.wire, MAX_PACKET_SIZE);
    open, packet := ReceivePacket(up, clData);
    turn := Turn(o0, false);
    if open {
      turn := ServePacket(down, server, packet, o0);
      forall i | 0 <= i <= |packet| {
        clData[i] := 0;
      }
    }
  }

  /** Every answered packet gets a non-empty frame, on every branch of every handler. */
  lemma NoReplyIsEmpty(s: State, r: Request, o: Oracle)
    ensures Handle(s, r, o).1.Frame? ==> Handle(s, r, o).1.data != []
  {
    match r
    case Get(id) =>
      var (s1, i) := Lookup(s, id, o.junk);
      if i >= 0 { GetReplyNotEmpty(s1.threads[i], o.pads); }
    case Find(part) => FindReplyNotEmpty(Matches(s.threads, part));
    case _ =>
  }

  /** The client's half after sending: size, then as many bytes, whatever the size. */
  method ReceiveResponse(pipe: Pipe) returns (response: bytes)
    modifies pipe
    ensures var inc := Incoming(pipe.recvPlan, old(pipe.recvs), old(pipe.wire), TWO_64);
      response == inc.packet && pipe.wire == inc.left
    ensures pipe.sends == old(pipe.sends)
  {
    var size := ReceiveSize(pipe);
    var raw := new byte[size + 1](_ => 0);
    ghost var rest := pipe.wire;
    var read := SRecv(pipe, raw, size);
    response := raw[..read];
    assert response == rest[..read];
  }

  /** The first call moves a whole size field and no call fails; how much the others move is up to them. */
  ghost predicate Flows(plan: Plan, k: nat) {
    plan(k) >= 8 && forall i :: i > k ==> plan(i) > 0
  }

  /** A socket that moves one byte a call flows, once it has taken the size field. */
  lemma OneByteAtATimeFlows(k: nat)
    ensures Flows(i => if i <= k then 8 else 1, k)
  {}

  lemma FlowsAll(plan: Plan, k: nat, size: nat)
    requires Flows(plan, k)
    ensures AllPositive(plan, k + 1, size)
  {}

  /** A frame put into an empty pipe comes out whole, in whatever pieces it goes in and comes out. */
  lemma FrameGetsThrough(
    sendPlan: Plan, k: nat, recvPlan: Plan, j: nat, data: bytes, oneCall: bool, limit: nat
  )
    requires Flows(sendPlan, k) && Flows(recvPlan, j) && (oneCall ==> sendPlan(k + 1) >= |data|)
    requires 0 < |data| <= limit && |data| < TWO_64
    ensures Incoming(recvPlan, j, [] + Outgoing(sendPlan, k, data, oneCall), limit) == Received(true, data, [])
  {
    FlowsAll(sendPlan, k, |data|);
    FlowsAll(recvPlan, j, |data|);
    OutgoingFrame(sendPlan, k, data, oneCall);
    IncomingFrame(recvPlan, j, data, [], limit);
    assert [] + Framed(data) == Framed(data) + [];
  }

  /**
    One query on a quiet connection: however the bytes are cut up in either direction, the server handles exactly
    the client's packet and the client gets exactly the server's reply.
   */
  method Exchange(up: Pipe, down: Pipe, server: LeServer, clData: array<byte>, query: bytes, o0: Oracle)
    returns (response: bytes, ghost turn: Turn)
    requires up != down && up.wire == [] && down.wire == [] && clData.Length == MAX_PACKET_SIZE + 1
    requires 0 < |query| <= MAX_PACKET_SIZE
    requires Flows(up.sendPlan, up.sends) && Flows(up.recvPlan, up.recvs)
    requires Flows(down.sendPlan, down.sends) && Flows(down.recvPlan, down.recvs)
    requires down.sendPlan(down.sends + 1) >= 4
    requires server.Valid() && server.nextId + 1 < TWO_64 && |o0.token| == TOKEN_SIZE
    modifies up, down, clData, server, server.threads, server.disk
    ensures server.Valid() && SameInputs(o0, turn.oracle)
    ensures server.Snapshot() == Handle(old(server.Snapshot()), ReadRequest(query), turn.oracle).0
    ensures var r := Handle(old(server.Snapshot()), ReadRequest(query), turn.oracle).1;
      r.Frame? && |r.data| < TWO_64 ==> response == r.data && up.wire == [] && down.wire == []
  {
    hide Handle, ReadRequest, Outgoing, Incoming, Flows;
    FrameGetsThrough(up.sendPlan, up.sends, up.recvPlan, up.recvs, query, false, MAX_PACKET_SIZE);
    SendData(up, query);
    var open;
    open, turn := HandleTurn(up, down, server, clData, o0);
    ghost var r := Handle(old(server.Snapshot()), ReadRequest(query), turn.oracle).1;
    if r.Frame? && |r.data| < TWO_64 {
      NoReplyIsEmpty(old(server.Snapshot()), ReadRequest(query), turn.oracle);
      FrameGetsThrough(down.sendPlan, old(down.sends), down.recvPlan, down.recvs, r.data, turn.oneCall, TWO_64);
    }
    response := ReceiveResponse(down);
  }
}
