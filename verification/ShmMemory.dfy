/**
 The message queue inside the shared region, at three levels: bytes as the C code reads and writes
 them, slot cells, and the sequence of queued messages.  Writes of posixshm_send and
 posixshm_rx_thread are stores into the bytes; `Abs` reads the cells out of the bytes.
 */
module ShmMemory {
  import opened Bytes
  import opened ShmLayout
  import opened Messages

  // ---- Bytes -------------------------------------------------------------------------------

  /** struct posixshm_metadata_t: two uint16_t, then head and tail, each a pair of ints. */
  const HEAD: nat := 4
  const TAIL: nat := 12
  /** struct posixshm_slot_info_t: next_slot (two ints), pool_type, is_in_use. */
  const POOL_TYPE: nat := 8
  const IN_USE: nat := 9

  type Region = m: seq<byte> | |m| == REGION witness seq(REGION, _ => 0)

  predicate Storable(l: Ref)
  {
    l == NONE || IsSlot(l)
  }

  function EncodeRef(l: Ref): (s: seq<byte>)
    requires Storable(l)
    ensures |s| == 8
  {
    LE32(OfInt32(l.pool)) + LE32(OfInt32(l.slot))
  }

  function DecodeRef(s: seq<byte>): Ref
    requires |s| == 8
  {
    Ref(ToInt32(FromLE32(s[..4])), ToInt32(FromLE32(s[4..])))
  }

  lemma RefRoundTrip(l: Ref)
    requires Storable(l)
    ensures DecodeRef(EncodeRef(l)) == l
  {
    Words(OfInt32(l.pool));
    Words(OfInt32(l.slot));
    assert EncodeRef(l)[..4] == LE32(OfInt32(l.pool)) && EncodeRef(l)[4..] == LE32(OfInt32(l.slot));
  }

  function RefAt(m: Region, at: nat): Ref
    requires at + 8 <= REGION
  {
    DecodeRef(Load(m, at, 8))
  }

  // ---- Cells -------------------------------------------------------------------------------

  /** One slot: its header fields and the bytes behind the slot header. */
  datatype Cell = Cell(next: Ref, poolType: byte, inUse: bool, area: seq<byte>)

  /** The whole region as the list algorithm sees it. */
  datatype Cells = Cells(head: Ref, tail: Ref, at: imap<Ref, Cell>)

  function CellOf(block: seq<byte>): Cell
    requires SLOT_HEADER < |block|
  {
    Cell(DecodeRef(block[..8]), block[POOL_TYPE], block[IN_USE] != 0, block[SLOT_HEADER..])
  }

  /** The bytes of one slot, header included. */
  function Block(m: Region, r: Ref): (block: seq<byte>)
    requires IsSlot(r)
    ensures |block| == SlotSize(r.pool) && SLOT_HEADER < |block|
  {
    SlotsDisjoint(r, r);
    Load(m, Addr(r), SlotSize(r.pool))
  }

  function CellAt(m: Region, r: Ref): (c: Cell)
    requires IsSlot(r)
    ensures |c.area| == SlotSize(r.pool) - SLOT_HEADER
  {
    CellOf(Block(m, r))
  }

  ghost function Abs(m: Region): Cells
  {
    Cells(RefAt(m, HEAD), RefAt(m, TAIL), imap r | IsSlot(r) :: CellAt(m, r))
  }

  function SetHead(m: Region, l: Ref): Region
    requires Storable(l)
  {
    Store(m, HEAD, EncodeRef(l))
  }

  function SetTail(m: Region, l: Ref): Region
    requires Storable(l)
  {
    Store(m, TAIL, EncodeRef(l))
  }

  /** A store `at` bytes into a slot. */
  function StoreIn(m: Region, r: Ref, at: nat, s: seq<byte>): Region
    requires IsSlot(r) && at + |s| <= SlotSize(r.pool)
  {
    SlotsDisjoint(r, r);
    Store(m, Addr(r) + at, s)
  }

  function SetNext(m: Region, r: Ref, l: Ref): Region
    requires IsSlot(r) && Storable(l)
  {
    SlotsDisjoint(r, r);
    StoreIn(m, r, 0, EncodeRef(l))
  }

  function SetInUse(m: Region, r: Ref, inUse: bool): Region
    requires IsSlot(r)
  {
    SlotsDisjoint(r, r);
    StoreIn(m, r, IN_USE, [if inUse then 1 else 0])
  }

  function SetPoolType(m: Region, r: Ref): Region
    requires IsSlot(r)
  {
    SlotsDisjoint(r, r);
    StoreIn(m, r, POOL_TYPE, [r.pool])
  }

  /** memcpy behind the slot header. */
  function Fill(m: Region, r: Ref, s: seq<byte>): Region
    requires IsSlot(r) && SLOT_HEADER + |s| <= SlotSize(r.pool)
  {
    StoreIn(m, r, SLOT_HEADER, s)
  }

  /** A store into the metadata block changes no cell. */
  lemma MetadataStore(m: Region, at: nat, s: seq<byte>)
    requires at + |s| <= 128
    ensures Abs(Store(m, at, s)).at == Abs(m).at
  {
    forall r | IsSlot(r)
      ensures CellAt(Store(m, at, s), r) == CellAt(m, r)
    {
      SlotsDisjoint(r, r);
      LoadAfterStore(m, at, s, Addr(r), SlotSize(r.pool));
    }
  }

  lemma StoreInKeepsOtherBlock(m: Region, r: Ref, at: nat, s: seq<byte>, q: Ref)
    requires IsSlot(r) && IsSlot(q) && q != r && at + |s| <= SlotSize(r.pool)
    ensures Block(StoreIn(m, r, at, s), q) == Block(m, q)
  {
    SlotsDisjoint(r, q);
    SlotsDisjoint(q, q);
    LoadAfterStore(m, Addr(r) + at, s, Addr(q), SlotSize(q.pool));
  }

  lemma StoreInOwnBlock(m: Region, r: Ref, at: nat, s: seq<byte>)
    requires IsSlot(r) && at + |s| <= SlotSize(r.pool)
    ensures Block(StoreIn(m, r, at, s), r) == Store(Block(m, r), at, s)
    ensures RefAt(StoreIn(m, r, at, s), HEAD) == RefAt(m, HEAD)
    ensures RefAt(StoreIn(m, r, at, s), TAIL) == RefAt(m, TAIL)
  {
    SlotsDisjoint(r, r);
    LoadAfterStore(m, Addr(r) + at, s, HEAD, 8);
    LoadAfterStore(m, Addr(r) + at, s, TAIL, 8);
    LoadAroundStore(m, Addr(r) + at, s, Addr(r), SlotSize(r.pool));
  }

  /** A store inside a slot changes that slot's cell and neither another cell nor head nor tail. */
  lemma AbsStoreIn(m: Region, r: Ref, at: nat, s: seq<byte>, cell: Cell)
    requires IsSlot(r) && at + |s| <= SlotSize(r.pool)
    requires cell == CellOf(Store(Block(m, r), at, s))
    ensures Abs(StoreIn(m, r, at, s)) == Put(Abs(m), r, cell)
  {
    var m' := StoreIn(m, r, at, s);
    StoreInOwnBlock(m, r, at, s);
    forall q | IsSlot(q) && q != r
      ensures CellAt(m', q) == CellAt(m, q)
    {
      StoreInKeepsOtherBlock(m, r, at, s, q);
    }
    assert Abs(m').at == Put(Abs(m), r, cell).at;
  }

  /** A cell update at one reference. */
  ghost function Put(c: Cells, r: Ref, cell: Cell): Cells
  {
    c.(at := c.at[r := cell])
  }

  lemma PutPut(c: Cells, r: Ref, x: Cell, y: Cell)
    ensures Put(Put(c, r, x), r, y) == Put(c, r, y)
  {
    assert Put(Put(c, r, x), r, y).at == Put(c, r, y).at;
  }

  lemma AbsSetHead(m: Region, l: Ref)
    requires Storable(l)
    ensures Abs(SetHead(m, l)) == Abs(m).(head := l)
  {
    MetadataStore(m, HEAD, EncodeRef(l));
    RefRoundTrip(l);
    LoadAfterStore(m, HEAD, EncodeRef(l), HEAD, 8);
    LoadAfterStore(m, HEAD, EncodeRef(l), TAIL, 8);
  }

  lemma AbsSetTail(m: Region, l: Ref)
    requires Storable(l)
    ensures Abs(SetTail(m, l)) == Abs(m).(tail := l)
  {
    MetadataStore(m, TAIL, EncodeRef(l));
    RefRoundTrip(l);
    LoadAfterStore(m, TAIL, EncodeRef(l), HEAD, 8);
    LoadAfterStore(m, TAIL, EncodeRef(l), TAIL, 8);
  }

  /** Header and area stores, on the block of a single slot. */
  lemma BlockNext(block: seq<byte>, l: Ref)
    requires Storable(l) && SLOT_HEADER < |block|
    ensures CellOf(Store(block, 0, EncodeRef(l))) == CellOf(block).(next := l)
  {
    RefRoundTrip(l);
    var b := Store(block, 0, EncodeRef(l));
    assert b[..8] == EncodeRef(l) && b[SLOT_HEADER..] == block[SLOT_HEADER..];
  }

  lemma BlockFlags(block: seq<byte>, b: byte)
    requires SLOT_HEADER < |block|
    ensures CellOf(Store(block, IN_USE, [b])) == CellOf(block).(inUse := b != 0)
    ensures CellOf(Store(block, POOL_TYPE, [b])) == CellOf(block).(poolType := b)
  {
    var u, t := Store(block, IN_USE, [b]), Store(block, POOL_TYPE, [b]);
    assert u[..8] == block[..8] && u[SLOT_HEADER..] == block[SLOT_HEADER..];
    assert t[..8] == block[..8] && t[SLOT_HEADER..] == block[SLOT_HEADER..];
  }

  lemma BlockArea(block: seq<byte>, s: seq<byte>)
    requires SLOT_HEADER < |block| && SLOT_HEADER + |s| <= |block|
    ensures CellOf(Store(block, SLOT_HEADER, s)) == CellOf(block).(area := Store(CellOf(block).area, 0, s))
  {
    var b := Store(block, SLOT_HEADER, s);
    assert b[..8] == block[..8] && b[SLOT_HEADER..] == Store(block[SLOT_HEADER..], 0, s);
  }

  lemma AbsSetNext(m: Region, r: Ref, l: Ref)
    requires IsSlot(r) && Storable(l)
    ensures Abs(SetNext(m, r, l)) == Put(Abs(m), r, Abs(m).at[r].(next := l))
  {
    SlotsDisjoint(r, r);
    BlockNext(Block(m, r), l);
    AbsStoreIn(m, r, 0, EncodeRef(l), CellAt(m, r).(next := l));
  }

  lemma AbsSetInUse(m: Region, r: Ref, inUse: bool)
    requires IsSlot(r)
    ensures Abs(SetInUse(m, r, inUse)) == Put(Abs(m), r, Abs(m).at[r].(inUse := inUse))
  {
    SlotsDisjoint(r, r);
    var b: byte := if inUse then 1 else 0;
    BlockFlags(Block(m, r), b);
    AbsStoreIn(m, r, IN_USE, [b], CellAt(m, r).(inUse := inUse));
  }

  lemma AbsSetPoolType(m: Region, r: Ref)
    requires IsSlot(r)
    ensures Abs(SetPoolType(m, r)) == Put(Abs(m), r, Abs(m).at[r].(poolType := r.pool))
  {
    SlotsDisjoint(r, r);
    BlockFlags(Block(m, r), r.pool);
    AbsStoreIn(m, r, POOL_TYPE, [r.pool], CellAt(m, r).(poolType := r.pool));
  }

  lemma AbsFill(m: Region, r: Ref, s: seq<byte>)
    requires IsSlot(r) && SLOT_HEADER + |s| <= SlotSize(r.pool)
    ensures Abs(Fill(m, r, s)) == Put(Abs(m), r, Abs(m).at[r].(area := Store(Abs(m).at[r].area, 0, s)))
  {
    SlotsDisjoint(r, r);
    var block := Block(m, r);
    BlockArea(block, s);
    AbsStoreIn(m, r, SLOT_HEADER, s, CellOf(Store(block, SLOT_HEADER, s)));
  }
}
