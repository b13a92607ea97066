/**
 Bytes, 32-bit words in both byte orders, and a flat byte memory with block loads and stores.
 */
module Bytes {

  type byte = b: int | 0 <= b < 0x100
  type u32 = w: int | 0 <= w < 0x1_0000_0000

  /** The host's layout of a 32-bit word (x86: least significant byte first). */
  function LE32(w: u32): (s: seq<byte>)
    ensures |s| == 4
  {
    [w % 0x100, w / 0x100 % 0x100, w / 0x1_0000 % 0x100, w / 0x100_0000]
  }

  function FromLE32(s: seq<byte>): (w: u32)
    requires |s| == 4
  {
    var a: int, b: int, c: int, d: int := s[0], s[1], s[2], s[3];
    a + 0x100 * b + 0x1_0000 * c + 0x100_0000 * d
  }

  /** Network byte order: most significant byte first (Appendix B of RFC 791). */
  function BE32(w: u32): (s: seq<byte>)
    ensures |s| == 4
  {
    [w / 0x100_0000, w / 0x1_0000 % 0x100, w / 0x100 % 0x100, w % 0x100]
  }

  function FromBE32(s: seq<byte>): (w: u32)
    requires |s| == 4
  {
    var a: int, b: int, c: int, d: int := s[0], s[1], s[2], s[3];
    0x100_0000 * a + 0x1_0000 * b + 0x100 * c + d
  }

  lemma Words(w: u32)
    ensures FromLE32(LE32(w)) == w
    ensures FromBE32(BE32(w)) == w
  {
    assert w / 0x1_0000 == w / 0x100 / 0x100;
    assert w / 0x100_0000 == w / 0x1_0000 / 0x100;
  }

  /** Two's complement reading of a C int, needed for the -1 that marks an absent slot. */
  function ToInt32(w: u32): (i: int)
    ensures -0x8000_0000 <= i < 0x8000_0000
  {
    if w < 0x8000_0000 then w else w - 0x1_0000_0000
  }

  function OfInt32(i: int): (w: u32)
    requires -0x8000_0000 <= i < 0x8000_0000
    ensures ToInt32(w) == i
  {
    if i < 0 then i + 0x1_0000_0000 else i
  }

  function Load(m: seq<byte>, at: nat, n: nat): (s: seq<byte>)
    requires at + n <= |m|
    ensures |s| == n
  {
    m[at..at + n]
  }

  function Store(m: seq<byte>, at: nat, s: seq<byte>): (r: seq<byte>)
    requires at + |s| <= |m|
    ensures |r| == |m|
  {
    m[..at] + s + m[at + |s|..]
  }

  /** A store is seen by a load of the same block and by no load of a block it does not touch. */
  lemma LoadAfterStore(m: seq<byte>, at: nat, s: seq<byte>, from: nat, n: nat)
    requires at + |s| <= |m| && from + n <= |m|
    ensures from == at && n == |s| ==> Load(Store(m, at, s), from, n) == s
    ensures from + n <= at || at + |s| <= from ==> Load(Store(m, at, s), from, n) == Load(m, from, n)
  {
    var r := Store(m, at, s);
    assert forall k :: 0 <= k < |m| && !(at <= k < at + |s|) ==> r[k] == m[k];
  }

  /** A store inside a block changes that block as the same store at the relative address. */
  lemma LoadAroundStore(m: seq<byte>, at: nat, s: seq<byte>, from: nat, n: nat)
    requires from <= at && at + |s| <= from + n <= |m|
    ensures Load(Store(m, at, s), from, n) == Store(Load(m, from, n), at - from, s)
  {
  }

  /** memcpy into an array. */
  method Copy(a: array<byte>, at: nat, s: seq<byte>)
    requires at + |s| <= a.Length
    modifies a
    ensures a[..] == Store(old(a[..]), at, s)
  {
    for k := 0 to |s|
      invariant forall j :: 0 <= j < a.Length ==> a[j] == if at <= j < at + k then s[j - at] else old(a[j])
    {
      a[at + k] := s[k];
    }
  }
}
