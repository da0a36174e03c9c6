/** Bytes, little-endian integers and the C string operations the program relies on. */
module Bytes {

  type byte = n: int | 0 <= n < 256
  type bytes = seq<byte>

  const TWO_64: int := 0x1_0000_0000_0000_0000
  const TWO_32: int := 0x1_0000_0000

  type u64 = n: int | 0 <= n < 0x1_0000_0000_0000_0000
  type u32 = n: int | 0 <= n < 0x1_0000_0000

  datatype Option<+T> = None | Some(value: T)

  // ---------------------------------------------------------------- integers

  /** The `width` low-order bytes of `n`, least significant first. */
  function Le(n: nat, width: nat): (r: bytes)
    ensures |r| == width
    decreases n, width
  {
    if width == 0 then [] else [n % 256] + Le(n / 256, width - 1)
  }

  function FromLe(s: bytes): nat {
    if s == [] then 0 else s[0] + 256 * FromLe(s[1..])
  }

  function Pow256(k: nat): (p: nat)
    ensures p > 0
  {
    if k == 0 then 1 else 256 * Pow256(k - 1)
  }

  lemma {:induction false} LeThenFromLe(n: nat, width: nat)
    requires n < Pow256(width)
    ensures FromLe(Le(n, width)) == n
    decreases width
  {
    if width > 0 {
      LeThenFromLe(n / 256, width - 1);
      assert Le(n, width)[1..] == Le(n / 256, width - 1);
    }
  }

  lemma Digit(low: byte, high: nat)
    ensures (low + 256 * high) % 256 == low && (low + 256 * high) / 256 == high
  {}

  lemma {:induction false} FromLeThenLe(s: bytes)
    ensures FromLe(s) < Pow256(|s|)
    ensures Le(FromLe(s), |s|) == s
  {
    if s != [] {
      var low, high, width := s[0], FromLe(s[1..]), |s| - 1;
      FromLeThenLe(s[1..]);
      assert |s[1..]| == width && Pow256(|s|) == 256 * Pow256(width);
      Digit(low, high);
      assert Le(low + 256 * high, |s|) == [low] + Le(high, width);
      assert s == [low] + s[1..];
    }
  }

  lemma WordSizes()
    ensures Pow256(8) == TWO_64 && Pow256(4) == TWO_32
  {
    assert Pow256(4) == 256 * Pow256(3) == 256 * (256 * Pow256(2)) == 256 * (256 * (256 * Pow256(1)));
    assert Pow256(8) == 256 * Pow256(7) == 256 * (256 * Pow256(6)) == 256 * (256 * (256 * Pow256(5)));
  }

  /** Storing a number in eight bytes keeps its low 64 bits. */
  function U64(n: nat): (r: bytes)
    ensures |r| == 8
  {
    Le(n, 8)
  }

  function U32(n: nat): (r: bytes)
    ensures |r| == 4
  {
    Le(n, 4)
  }

  /** What `*(uint64_t *)p` reads. */
  function ReadU64(s: bytes): (n: u64)
    requires |s| == 8
  {
    FromLeThenLe(s);
    WordSizes();
    FromLe(s)
  }

  function ReadU32(s: bytes): (n: u32)
    requires |s| == 4
  {
    FromLeThenLe(s);
    WordSizes();
    FromLe(s)
  }

  lemma U64RoundTrip(n: u64)
    ensures ReadU64(U64(n)) == n
  {
    WordSizes();
    LeThenFromLe(n, 8);
  }

  lemma U32RoundTrip(n: u32)
    ensures ReadU32(U32(n)) == n
  {
    WordSizes();
    LeThenFromLe(n, 4);
  }

  lemma Assoc(a: bytes, b: bytes, c: bytes)
    ensures (a + b) + c == a + (b + c)
  {}

  // ---------------------------------------------------------- consuming input

  /** `strncmp(p, tag, strlen(tag)) == 0`, then step over the tag; the byte after the data is NUL. */
  function Eat(tag: bytes, s: bytes): Option<bytes> {
    if |tag| <= |s| && s[..|tag|] == tag then Some(s[|tag|..]) else None
  }

  lemma EatTag(tag: bytes, rest: bytes)
    ensures Eat(tag, tag + rest) == Some(rest)
  {
    assert (tag + rest)[..|tag|] == tag;
    assert (tag + rest)[|tag|..] == rest;
  }

  /** Read eight bytes as a number; None when the data ends first. */
  function EatU64(s: bytes): (r: Option<(u64, bytes)>)
    ensures r.Some? <==> 8 <= |s|
  {
    if |s| < 8 then None else Some((ReadU64(s[..8]), s[8..]))
  }

  lemma EatU64Prefix(n: u64, rest: bytes)
    ensures EatU64(U64(n) + rest) == Some((n, rest))
  {
    U64RoundTrip(n);
    assert (U64(n) + rest)[..8] == U64(n);
    assert (U64(n) + rest)[8..] == rest;
  }

  function EatU32(s: bytes): (r: Option<(u32, bytes)>)
    ensures r.Some? <==> 4 <= |s|
  {
    if |s| < 4 then None else Some((ReadU32(s[..4]), s[4..]))
  }

  // --------------------------------------------------------------- C strings

  ghost predicate NulFree(s: bytes) {
    forall i :: 0 <= i < |s| ==> s[i] != 0
  }

  /** `strlen` of a buffer that is followed by a NUL. */
  function StrLen(s: bytes): (n: nat)
    ensures n <= |s| && NulFree(s[..n])
    ensures n < |s| ==> s[n] == 0
  {
    if s == [] || s[0] == 0 then 0
    else
      var n := 1 + StrLen(s[1..]);
      assert s[..n] == [s[0]] + s[1..][..n - 1];
      n
  }

  lemma StrLenUnique(s: bytes, n: nat)
    requires n <= |s| && NulFree(s[..n]) && (n < |s| ==> s[n] == 0)
    ensures StrLen(s) == n
  {
    if n > 0 {
      assert s[0] == s[..n][0];
      assert s[1..][..n - 1] == s[..n][1..];
      StrLenUnique(s[1..], n - 1);
    }
  }

  /** What `strncpy(dst, s, n); dst[n] = 0` leaves in `dst`, read as a C string. */
  function CStrN(s: bytes, n: nat): (r: bytes)
    ensures NulFree(r) && |r| <= n
  {
    var k := StrLen(s);
    if k <= n then s[..k] else s[..n]
  }

  function CStr(s: bytes): (r: bytes)
    ensures NulFree(r)
  {
    s[..StrLen(s)]
  }

  lemma CStrOfNulFree(s: bytes)
    requires NulFree(s)
    ensures CStr(s) == s
  {
    StrLenUnique(s, |s|);
  }

  lemma CStrNPrefix(s: bytes, rest: bytes)
    requires NulFree(s)
    ensures CStrN(s + rest, |s|) == s
  {
    assert forall i :: 0 <= i < |s| ==> (s + rest)[i] == s[i];
    assert (s + rest)[..|s|] == s;
  }

  function Zeros(n: nat): (r: bytes)
    ensures |r| == n
  {
    seq(n, _ => 0)
  }

  /** The n bytes that `strncpy(dst, s, n)` writes: the string, cut or padded with NULs. */
  function StrNCpy(s: bytes, n: nat): (r: bytes)
    ensures |r| == n
  {
    var c := CStrN(s, n);
    c + Zeros(n - |c|)
  }

  lemma StrNCpyExact(s: bytes, rest: bytes)
    requires NulFree(s)
    ensures StrNCpy(s + rest, |s|) == s
  {
    CStrNPrefix(s, rest);
  }

  /** `strncmp(a, b, n) == 0` where both buffers are followed by a NUL. */
  predicate StrNEq(a: bytes, b: bytes, n: nat)
    decreases n
  {
    n == 0 ||
    if a == [] || a[0] == 0 then b == [] || b[0] == 0
    else b != [] && a[0] == b[0] && StrNEq(a[1..], b[1..], n - 1)
  }

  /** Comparing a NUL-free token of exactly n bytes is exact equality of n bytes. */
  lemma {:induction false} StrNEqExact(a: bytes, b: bytes)
    requires NulFree(a)
    ensures StrNEq(a, b, |a|) <==> |a| <= |b| && b[..|a|] == a
  {
    if a != [] && b != [] && a[0] == b[0] {
      StrNEqExact(a[1..], b[1..]);
      assert a == [a[0]] + a[1..];
      if |a| <= |b| {
        assert b[..|a|] == [b[0]] + b[1..][..|a| - 1];
      }
    } else if a != [] && b != [] && |a| <= |b| {
      assert b[..|a|][0] == b[0];
    }
  }

  /** `strstr(h, n) != NULL`. */
  predicate Contains(h: bytes, n: bytes) {
    (|n| <= |h| && h[..|n|] == n) || (h != [] && Contains(h[1..], n))
  }

  ghost predicate OccursAt(h: bytes, n: bytes, i: nat) {
    i + |n| <= |h| && h[i..i + |n|] == n
  }

  lemma OccursLater(h: bytes, n: bytes, i: nat)
    requires h != []
    ensures OccursAt(h[1..], n, i) <==> OccursAt(h, n, i + 1)
  {
    if i + 1 + |n| <= |h| {
      assert h[1..][i..i + |n|] == h[i + 1..i + 1 + |n|];
    }
  }

  lemma OccursFirst(h: bytes, n: bytes)
    ensures OccursAt(h, n, 0) <==> |n| <= |h| && h[..|n|] == n
  {}

  lemma {:induction false} ContainsMeansSubstring(h: bytes, n: bytes)
    ensures Contains(h, n) <==> exists i: nat :: OccursAt(h, n, i)
  {
    OccursFirst(h, n);
    if h != [] {
      ContainsMeansSubstring(h[1..], n);
      hide OccursAt;
      if i: nat :| OccursAt(h[1..], n, i) {
        OccursLater(h, n, i);
      }
      if i: nat :| OccursAt(h, n, i) && i > 0 {
        OccursLater(h, n, i - 1);
      }
    } else {
      assert forall i: nat :: OccursAt(h, n, i) ==> i == 0;
    }
  }
}
