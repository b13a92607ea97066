/**
 The itc_message as it lies in memory: a 16-byte header (flags, receiver, sender, size), then
 `size` user bytes starting with msgno, then the ENDPOINT guard byte.
 */
module Messages {
  import opened Bytes
  import opened ShmLayout

  const ENDPOINT: byte := 0xAA

  /** `body` is what follows msgno in the user part, so size = 4 + |body|. */
  datatype Message = Message(flags: u32, receiver: u32, sender: u32, msgno: u32, body: seq<byte>)

  function Size(m: Message): nat
  {
    4 + |m.body|
  }

  /** What itc_alloc admits: malloc_alloc refuses more than ITC_MAX_MSGSIZE bytes in all. */
  predicate Allocatable(m: Message)
  {
    Size(m) + ITC_HEADER + 1 <= MAX_ALLOC
  }

  /** itc_alloc raises a size below 4 to 4, zeroes the rest and writes ENDPOINT after the user part. */
  function Alloc(size: nat, msgno: u32): (m: Message)
    ensures Size(m) == if size < 4 then 4 else size
  {
    Message(0, 0xFFFF_FFFF, 0xFFFF_FFFF, msgno, seq(if size < 4 then 0 else size - 4, _ => 0))
  }

  /** The first size + 16 bytes of the itc_message, without the guard. */
  function Flat(m: Message): (s: seq<byte>)
    requires Allocatable(m)
    ensures |s| == Size(m) + ITC_HEADER
  {
    LE32(m.flags) + LE32(m.receiver) + LE32(m.sender) + LE32(Size(m)) + LE32(m.msgno) + m.body
  }

  function Wire(m: Message): (s: seq<byte>)
    requires Allocatable(m)
    ensures |s| == Size(m) + ITC_HEADER + 1
  {
    Flat(m) + [ENDPOINT]
  }

  /** rxmsg->size, read from memory that starts with an itc_message. */
  function SizeField(s: seq<byte>): u32
    requires 20 <= |s|
  {
    FromLE32(s[12..16])
  }

  /** The fields of an itc_message read back from memory holding its first size + 16 bytes. */
  function Unflatten(s: seq<byte>): (m: Message)
    requires 20 <= |s|
  {
    Message(FromLE32(s[0..4]), FromLE32(s[4..8]), FromLE32(s[8..12]), FromLE32(s[16..20]), s[20..])
  }

  lemma FlatRoundTrip(m: Message)
    requires Allocatable(m)
    ensures Unflatten(Flat(m)) == m && SizeField(Flat(m)) == Size(m)
  {
    var s := Flat(m);
    assert s[0..4] == LE32(m.flags) && s[4..8] == LE32(m.receiver) && s[8..12] == LE32(m.sender);
    assert s[12..16] == LE32(Size(m)) && s[16..20] == LE32(m.msgno) && s[20..] == m.body;
    Words(m.flags); Words(m.receiver); Words(m.sender); Words(Size(m)); Words(m.msgno);
  }

  /** What handle_received_message does with the bytes behind a slot header. */
  datatype Received = Delivered(message: Message) | BadEndpoint | OutOfBounds

  /**
   handle_received_message: check ENDPOINT at msgno + size, allocate, copy size + 17 bytes, restore
   the flags of the fresh allocation (zero).  A size field pointing past the slot has no defined result.
   */
  function Rebuild(area: seq<byte>): Received
  {
    if |area| < 21 || SizeField(area) < 4 || |area| <= SizeField(area) + ITC_HEADER then OutOfBounds
    else
      var n := SizeField(area) + ITC_HEADER;
      if area[n] != ENDPOINT then BadEndpoint
      else Delivered(Unflatten(area[..n]).(flags := 0))
  }

  /** Any memory that starts with a message's wire form is rebuilt into that message with flags 0. */
  lemma RebuildWire(area: seq<byte>, m: Message)
    requires Allocatable(m) && Wire(m) <= area
    ensures SizeField(area) == Size(m)
    ensures Rebuild(area) == Delivered(m.(flags := 0))
  {
    FlatRoundTrip(m);
    var n := Size(m) + ITC_HEADER;
    assert area[..n] == Flat(m) && area[n] == ENDPOINT;
    assert area[12..16] == Flat(m)[12..16];
  }

  /** The four bytes at `at` are the word, the least significant first. */
  predicate HostWordAt(s: seq<byte>, at: nat, w: u32)
    requires at + 4 <= |s|
  {
    s[at] == w % 0x100 && s[at + 1] == w / 0x100 % 0x100 && s[at + 2] == w / 0x1_0000 % 0x100 && s[at + 3] == w / 0x100_0000
  }

  /** struct itc_message in memory: flags, receiver, sender, size, then the user part from msgno on, then 0xAA. */
  lemma WireBytes(m: Message)
    requires Allocatable(m)
    ensures var s := Wire(m);
            && |s| == 21 + |m.body|
            && HostWordAt(s, 0, m.flags) && HostWordAt(s, 4, m.receiver) && HostWordAt(s, 8, m.sender)
            && HostWordAt(s, 12, 4 + |m.body|) && HostWordAt(s, 16, m.msgno)
            && s[20..20 + |m.body|] == m.body && s[20 + |m.body|] == 0xAA
  {
  }

  /**
   A fresh message in memory: no flags, neither receiver nor sender, and a user part of zeros behind its
   msgno; admitted exactly if it takes at most 10 MiB in all.
   */
  lemma AllocBytes(size: nat, msgno: u32)
    ensures var m, n := Alloc(size, msgno), if size < 4 then 4 else size;
            && (Allocatable(m) <==> n + 17 <= 0xA0_0000)
            && (Allocatable(m) ==>
                  var s := Wire(m);
                  && |s| == n + 17 && s[0..4] == [0, 0, 0, 0] && (forall i :: 4 <= i < 12 ==> s[i] == 0xFF)
                  && HostWordAt(s, 12, n) && HostWordAt(s, 16, msgno)
                  && (forall i :: 20 <= i < n + 16 ==> s[i] == 0) && s[n + 16] == 0xAA)
  {
    var m := Alloc(size, msgno);
    if Allocatable(m) {
      var s := Wire(m);
      WireBytes(m);
      assert forall i :: 20 <= i < 20 + |m.body| ==> s[i] == s[20..20 + |m.body|][i - 20];
    }
  }

  /**
   On any memory with room for the message it announces, the receiver delivers exactly if 0xAA follows
   the user part, and then the fields are those of the memory.
   */
  lemma DeliversIff(area: seq<byte>)
    requires |area| >= 21 && 4 <= SizeField(area) && SizeField(area) + 16 < |area|
    ensures Rebuild(area).Delivered? <==> area[SizeField(area) + 16] == 0xAA
    ensures Rebuild(area).Delivered? ==>
              var m := Rebuild(area).message;
              && m.flags == 0 && m.body == area[20..SizeField(area) + 16]
              && HostWordAt(area, 4, m.receiver) && HostWordAt(area, 8, m.sender) && HostWordAt(area, 16, m.msgno)
    ensures HostWordAt(area, 12, SizeField(area))
  {
    var n := SizeField(area) + ITC_HEADER;
    var s := area[..n];
    assert s[4..8] == area[4..8] && s[8..12] == area[8..12] && s[16..20] == area[16..20];
    HostWord(area, 4);
    HostWord(area, 8);
    HostWord(area, 12);
    HostWord(area, 16);
  }

  lemma HostWord(s: seq<byte>, at: nat)
    requires at + 4 <= |s|
    ensures HostWordAt(s, at, FromLE32(s[at..at + 4]))
  {
    BytesOfWord(s[at], s[at + 1], s[at + 2], s[at + 3]);
  }

  lemma Digit(a: int, x: int)
    requires 0 <= a < 0x100 && 0 <= x
    ensures (a + 0x100 * x) % 0x100 == a && (a + 0x100 * x) / 0x100 == x
  {
  }

  lemma BytesOfWord(a: int, b: int, c: int, d: int)
    requires 0 <= a < 0x100 && 0 <= b < 0x100 && 0 <= c < 0x100 && 0 <= d < 0x100
    ensures var w := a + 0x100 * b + 0x1_0000 * c + 0x100_0000 * d;
            w % 0x100 == a && w / 0x100 % 0x100 == b && w / 0x1_0000 % 0x100 == c && w / 0x100_0000 == d
  {
    var w := a + 0x100 * b + 0x1_0000 * c + 0x100_0000 * d;
    var x := b + 0x100 * (c + 0x100 * d);
    Digit(a, x);
    assert w == a + 0x100 * x;
    Digit(b, c + 0x100 * d);
    Digit(c, d);
    assert w / 0x1_0000 == w / 0x100 / 0x100 && w / 0x100_0000 == w / 0x1_0000 / 0x100;
  }
}
