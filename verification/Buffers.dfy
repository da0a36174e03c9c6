/** Growing byte buffers and writes through an advancing position. */
module Buffers {
  import opened Bytes

  /**
    `strncpy` or a word store at `at`, then the pointer advances past it.
    `before` and `sofar` split what is already written, so that a caller can name the part it is building.
   */
  method Put(buf: array<byte>, at: nat, data: bytes, ghost before: bytes, ghost sofar: bytes) returns (next: nat)
    requires at + |data| <= buf.Length && buf[..at] == before + sofar
    modifies buf
    ensures next == at + |data|
    ensures buf[..next] == before + (sofar + data)
    ensures buf[next..] == old(buf[next..])
  {
    var i := 0;
    while i < |data|
      invariant i <= |data|
      invariant buf[..at] == old(buf[..at])
      invariant buf[at..at + i] == data[..i]
      invariant buf[at + |data|..] == old(buf[at + |data|..])
    {
      buf[at + i] := data[i];
      i := i + 1;
    }
    next := at + |data|;
    assert buf[at..next] == data[..|data|] == data;
    assert buf[..next] == buf[..at] + buf[at..next];
    assert (before + sofar) + data == before + (sofar + data);
  }

  /** `malloc`: the contents are whatever was there. */
  method Malloc(size: nat) returns (buf: array<byte>)
    ensures fresh(buf) && buf.Length == size
  {
    buf := new byte[size];
  }

  method Realloc(buf: array<byte>, size: nat) returns (grown: array<byte>)
    requires buf.Length <= size
    ensures fresh(grown) && grown.Length == size
    ensures grown[..buf.Length] == buf[..]
  {
    grown := new byte[size];
    forall i | 0 <= i < buf.Length {
      grown[i] := buf[i];
    }
  }

  /** Double the chunk until a record of `need` bytes fits strictly below it; the bytes written so far survive. */
  method Grow(buf: array<byte>, chunk: nat, size: nat, need: nat) returns (grown: array<byte>, newChunk: nat)
    requires 0 < chunk <= buf.Length <= chunk + 1 && size <= chunk
    ensures size + need < newChunk && size <= newChunk <= grown.Length <= newChunk + 1 && newChunk >= chunk
    ensures grown[..size] == buf[..size]
    ensures grown == buf || fresh(grown)
  {
    grown, newChunk := buf, chunk;
    while size + need >= newChunk
      invariant 0 < chunk <= newChunk <= grown.Length <= newChunk + 1
      invariant grown[..size] == buf[..size]
      invariant grown == buf || fresh(grown)
      decreases size + need - newChunk
    {
      newChunk := newChunk * 2;
      var bigger := Realloc(grown, newChunk);
      assert bigger[..size] == bigger[..grown.Length][..size];
      grown := bigger;
    }
  }
}
