/** The transfer loops of lib/communication.c over a socket that moves as few bytes per call as it likes. */
module Communication {
  import opened Bytes

  /** What the socket will answer to each call: a byte count, zero, or an error. */
  type Plan = nat -> int

  /** A transfer never moves more than it was asked to. */
  function Granted(answer: int, size: nat): (n: int)
    ensures n <= size
  {
    if answer <= size then answer else size
  }

  /** How much a transfer loop moves, of `size` bytes, when its first call is call k. */
  function Moved(plan: Plan, k: nat, size: nat): (n: nat)
    ensures n <= size
    decreases size
  {
    if size == 0 || plan(k) <= 0 then 0
    else var n := Granted(plan(k), size); n + Moved(plan, k + 1, size - n)
  }

  lemma MovedStep(plan: Plan, k: nat, size: nat)
    ensures size == 0 || plan(k) <= 0 ==> Moved(plan, k, size) == 0
    ensures size > 0 && plan(k) > 0 ==>
      Moved(plan, k, size) == Granted(plan(k), size) + Moved(plan, k + 1, size - Granted(plan(k), size))
  {}

  ghost predicate AllPositive(plan: Plan, k: nat, calls: nat) {
    forall i :: k <= i < k + calls ==> plan(i) > 0
  }

  function Sum(plan: Plan, k: nat, calls: nat): int
    decreases calls
  {
    if calls == 0 then 0 else plan(k) + Sum(plan, k + 1, calls - 1)
  }

  /**
    A loop moves what its leading positive answers add up to, but no more than it was asked for: if call k + calls
    is the first to fail, that sum capped at size; if the answers before any failure reach size, all of it.
   */
  lemma {:induction false} MovedExactly(plan: Plan, k: nat, size: nat, calls: nat)
    requires AllPositive(plan, k, calls)
    ensures Sum(plan, k, calls) >= size ==> Moved(plan, k, size) == size
    ensures Sum(plan, k, calls) <= size && plan(k + calls) <= 0 ==> Moved(plan, k, size) == Sum(plan, k, calls)
    decreases calls
  {
    if calls > 0 && size > 0 {
      var n := Granted(plan(k), size);
      MovedExactly(plan, k + 1, size - n, calls - 1);
      SumNotNegative(plan, k + 1, calls - 1);
    } else if calls > 0 {
      SumNotNegative(plan, k + 1, calls - 1);
    }
  }

  lemma {:induction false} SumNotNegative(plan: Plan, k: nat, calls: nat)
    requires AllPositive(plan, k, calls)
    ensures Sum(plan, k, calls) >= calls
    decreases calls
  {
    if calls > 0 {
      SumNotNegative(plan, k + 1, calls - 1);
    }
  }

  /** Without a failure everything is moved, in however small pieces. */
  lemma MovesAll(plan: Plan, k: nat, size: nat)
    requires AllPositive(plan, k, size)
    ensures Moved(plan, k, size) == size
  {
    SumNotNegative(plan, k, size);
    MovedExactly(plan, k, size, size);
  }

  /** Every message on a connection: its size in eight bytes, then its bytes. */
  function Framed(data: bytes): (r: bytes)
    ensures |r| == 8 + |data|
  {
    U64(|data|) + data
  }

  /** One direction of a connection: bytes enter at one end and leave at the other in order. */
  class Pipe {
    const sendPlan: Plan
    const recvPlan: Plan
    var sends: nat
    var recvs: nat
    var wire: bytes

    constructor (sendPlan: Plan, recvPlan: Plan)
      ensures this.sendPlan == sendPlan && this.recvPlan == recvPlan && wire == [] && sends == 0 && recvs == 0
    {
      this.sendPlan, this.recvPlan := sendPlan, recvPlan;
      wire, sends, recvs := [], 0, 0;
    }

    /** `send`. */
    method Send(buf: array<byte>, from: nat, size: nat) returns (n: int)
      requires from + size <= buf.Length
      modifies this
      ensures n == Granted(sendPlan(old(sends)), size) && sends == old(sends) + 1 && recvs == old(recvs)
      ensures wire == old(wire) + buf[from..from + if n > 0 then n else 0]
    {
      n := Granted(sendPlan(sends), size);
      wire := wire + buf[from..from + if n > 0 then n else 0];
      sends := sends + 1;
    }

    /** `recv`: at most what has arrived; zero at the end of the stream. */
    method Recv(buf: array<byte>, from: nat, size: nat) returns (n: int)
      requires from + size <= buf.Length
      modifies this, buf
      ensures n == Granted(recvPlan(old(recvs)), if size <= |old(wire)| then size else |old(wire)|)
      ensures recvs == old(recvs) + 1 && sends == old(sends)
      ensures n <= 0 ==> wire == old(wire) && buf[..] == old(buf[..])
      ensures n > 0 ==>
        && wire == old(wire)[n..]
        && buf[..] == old(buf[..])[..from] + old(wire)[..n] + old(buf[..])[from + n..]
    {
      n := Granted(recvPlan(recvs), if size <= |wire| then size else |wire|);
      recvs := recvs + 1;
      if n > 0 {
        forall i | 0 <= i < n {
          buf[from + i] := wire[i];
        }
        wire := wire[n..];
      }
    }
  }

  /** `s_send`: a prefix of the data goes out in order, all of it unless a call returned zero or an error. */
  method SSend(pipe: Pipe, buf: array<byte>, size: nat) returns (sent: nat)
    requires size <= buf.Length
    modifies pipe
    ensures sent == Moved(pipe.sendPlan, old(pipe.sends), size)
    ensures pipe.wire == old(pipe.wire) + buf[..sent] && pipe.recvs == old(pipe.recvs)
    ensures sent < size ==> pipe.sends > old(pipe.sends) && pipe.sendPlan(pipe.sends - 1) <= 0
  {
    hide Moved;
    sent := 0;
    while sent < size
      invariant sent <= size && pipe.sends >= old(pipe.sends) && pipe.recvs == old(pipe.recvs)
      invariant sent + Moved(pipe.sendPlan, pipe.sends, size - sent) == Moved(pipe.sendPlan, old(pipe.sends), size)
      invariant pipe.wire == old(pipe.wire) + buf[..sent]
      decreases size - sent
    {
      MovedStep(pipe.sendPlan, pipe.sends, size - sent);
      var tmp := pipe.Send(buf, sent, size - sent);
      if tmp == 0 {
        return;
      }
      if tmp < 0 {
        return;
      }
      assert tmp == Granted(pipe.sendPlan(pipe.sends - 1), size - sent);
      assert buf[..sent + tmp] == buf[..sent] + buf[sent..sent + tmp];
      sent := sent + tmp;
    }
  }

  /** A buffer that held `was` and received the first r bytes of `wire`: those, and the rest untouched. */
  ghost predicate Filled(buf: bytes, wire: bytes, was: bytes, r: nat) {
    r <= |wire| && r <= |was| && buf == wire[..r] + was[r..]
  }

  lemma NothingFilled(wire: bytes, was: bytes)
    ensures Filled(was, wire, was, 0) && wire[0..] == wire
  {}

  /** A buffer filled up to r, filled k bytes further, is filled up to r + k. */
  lemma Splice(wire: bytes, was: bytes, r: nat, k: nat, buf: bytes)
    requires Filled(buf, wire, was, r) && r + k <= |wire| && r + k <= |was|
    ensures |buf| == |was| && Filled(buf[..r] + wire[r..][..k] + buf[r + k..], wire, was, r + k)
    ensures wire[r..][k..] == wire[r + k..]
  {
    assert buf[..r] == wire[..r];
    assert buf[r + k..] == was[r + k..];
    assert wire[..r] + wire[r..][..k] == wire[..r + k];
  }

  /** `s_recv`: fills a prefix of the buffer with what arrived, in order, and touches nothing else. */
  method SRecv(pipe: Pipe, buf: array<byte>, size: nat) returns (received: nat)
    requires size <= buf.Length
    modifies pipe, buf
    ensures received == Moved(pipe.recvPlan, old(pipe.recvs),
                              if size <= |old(pipe.wire)| then size else |old(pipe.wire)|)
    ensures pipe.wire == old(pipe.wire)[received..] && pipe.sends == old(pipe.sends)
    ensures Filled(buf[..], old(pipe.wire), old(buf[..]), received)
    ensures received < size ==>
      pipe.recvs > old(pipe.recvs) && (pipe.recvPlan(pipe.recvs - 1) <= 0 || received == |old(pipe.wire)|)
  {
    hide Moved, Filled;
    received := 0;
    ghost var whole, was := pipe.wire, buf[..];
    ghost var left: nat := if size <= |whole| then size else |whole|;
    ghost var total := Moved(pipe.recvPlan, pipe.recvs, left);
    NothingFilled(whole, was);
    while received < size
      invariant received + left == (if size <= |whole| then size else |whole|)
      invariant pipe.recvs >= old(pipe.recvs) && pipe.sends == old(pipe.sends)
      invariant received + Moved(pipe.recvPlan, pipe.recvs, left) == total
      invariant pipe.wire == whole[received..]
      invariant Filled(buf[..], whole, was, received)
      decreases size - received
    {
      ghost var before := buf[..];
      MovedStep(pipe.recvPlan, pipe.recvs, left);
      var tmp := pipe.Recv(buf, received, size - received);
      assert tmp == Granted(pipe.recvPlan(pipe.recvs - 1), left);
      assert tmp <= 0 ==> pipe.recvPlan(pipe.recvs - 1) <= 0 || received == |whole|;
      if tmp == 0 {
        return;
      }
      if tmp < 0 {
        return;
      }
      Splice(whole, was, received, tmp, before);
      received := received + tmp;
      left := left - tmp;
    }
  }
}
