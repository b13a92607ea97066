/**
 The FIFO threaded through the slots: posixshm_send's critical section appends to it and
 posixshm_rx_thread's critical section drops its first element, both on the bytes of the region.
 */
module ShmQueue {
  import opened Bytes
  import opened ShmLayout
  import opened Messages
  import opened ShmMemory

  // ---- Representation ----------------------------------------------------------------------

  function First(chain: seq<Ref>): Ref
  {
    if chain == [] then NONE else chain[0]
  }

  function Last(chain: seq<Ref>): Ref
  {
    if chain == [] then NONE else chain[|chain| - 1]
  }

  function After(chain: seq<Ref>, i: nat): Ref
  {
    if i + 1 < |chain| then chain[i + 1] else NONE
  }

  ghost predicate Distinct(chain: seq<Ref>)
  {
    forall i, j :: 0 <= i < j < |chain| ==> chain[i] != chain[j]
  }

  /** Slot `r` in use exactly if it is queued, with its pool type, and unlinked when not queued. */
  ghost predicate SlotOk(c: Cells, chain: seq<Ref>, r: Ref)
  {
    r in c.at && c.at[r].poolType == r.pool && c.at[r].inUse == (r in chain)
    && (r !in chain ==> c.at[r].next == NONE)
  }

  /** The i-th queued slot links to the next one and holds the i-th message. */
  ghost predicate LinkOk(c: Cells, chain: seq<Ref>, data: seq<seq<byte>>, i: nat)
    requires i < |chain| == |data|
  {
    IsSlot(chain[i]) && chain[i] in c.at && c.at[chain[i]].next == After(chain, i) && data[i] <= c.at[chain[i]].area
  }

  /**
   From head through next the cells visit exactly `chain`, each of its slots once, and end at tail;
   slots of the chain are in use and hold `data`; every other slot is unused with next = (-1,-1).
   */
  ghost predicate Represents(c: Cells, chain: seq<Ref>, data: seq<seq<byte>>)
  {
    && |chain| == |data|
    && Distinct(chain)
    && c.head == First(chain)
    && c.tail == Last(chain)
    && (forall r :: IsSlot(r) ==> SlotOk(c, chain, r))
    && (forall i: nat :: i < |chain| ==> LinkOk(c, chain, data, i))
  }

  // ---- Enqueue -----------------------------------------------------------------------------

  /** Link slot `r` behind the tail. */
  function Link(m: Region, r: Ref): Region
    requires IsSlot(r) && Storable(RefAt(m, TAIL))
  {
    var tail := RefAt(m, TAIL);
    SetTail(if tail == NONE then SetHead(m, r) else SetNext(m, tail, r), r)
  }

  /** Mark slot `r` used and copy the message bytes into it. */
  function Occupy(m: Region, r: Ref, s: seq<byte>): Region
    requires IsSlot(r) && SLOT_HEADER + |s| <= SlotSize(r.pool)
  {
    Fill(SetInUse(m, r, true), r, s)
  }

  function Enqueue(m: Region, r: Ref, s: seq<byte>): Region
    requires IsSlot(r) && SLOT_HEADER + |s| <= SlotSize(r.pool)
    requires Storable(RefAt(m, TAIL))
  {
    Occupy(Link(m, r), r, s)
  }

  ghost function LinkCells(c: Cells, r: Ref): Cells
    requires c.tail == NONE || c.tail in c.at
  {
    (if c.tail == NONE then c.(head := r) else Put(c, c.tail, c.at[c.tail].(next := r))).(tail := r)
  }

  ghost function OccupyCells(c: Cells, r: Ref, s: seq<byte>): Cells
    requires r in c.at && |s| <= |c.at[r].area|
  {
    Put(c, r, c.at[r].(inUse := true, area := Store(c.at[r].area, 0, s)))
  }

  lemma AbsLink(m: Region, r: Ref)
    requires IsSlot(r) && Storable(RefAt(m, TAIL))
    ensures Abs(Link(m, r)) == LinkCells(Abs(m), r)
  {
    if RefAt(m, TAIL) == NONE {
      AbsSetHead(m, r);
      AbsSetTail(SetHead(m, r), r);
    } else {
      AbsSetNext(m, RefAt(m, TAIL), r);
      AbsSetTail(SetNext(m, RefAt(m, TAIL), r), r);
    }
  }

  lemma AbsOccupy(m: Region, r: Ref, s: seq<byte>)
    requires IsSlot(r) && SLOT_HEADER + |s| <= SlotSize(r.pool)
    ensures Abs(Occupy(m, r, s)) == OccupyCells(Abs(m), r, s)
  {
    AbsSetInUse(m, r, true);
    AbsFill(SetInUse(m, r, true), r, s);
    var cell := Abs(m).at[r];
    PutPut(Abs(m), r, cell.(inUse := true), cell.(inUse := true, area := Store(cell.area, 0, s)));
  }

  ghost function EnqueueCells(c: Cells, r: Ref, s: seq<byte>): Cells
    requires r in c.at && |s| <= |c.at[r].area|
    requires c.tail == NONE || (c.tail in c.at && c.tail != r)
  {
    OccupyCells(LinkCells(c, r), r, s)
  }

  lemma EnqueueCellsAppends(c: Cells, chain: seq<Ref>, data: seq<seq<byte>>, r: Ref, s: seq<byte>)
    requires Represents(c, chain, data) && IsSlot(r) && r !in chain
    requires r in c.at && |s| <= |c.at[r].area|
    ensures chain == [] || LinkOk(c, chain, data, |chain| - 1)
    ensures Represents(EnqueueCells(c, r, s), chain + [r], data + [s])
  {
    var n := |chain|;
    assert chain != [] ==> LinkOk(c, chain, data, n - 1);
    var c', chain', data' := EnqueueCells(c, r, s), chain + [r], data + [s];
    forall q | IsSlot(q)
      ensures SlotOk(c', chain', q)
    {
      assert SlotOk(c, chain, q);
      assert q in chain' <==> q in chain || q == r;
    }
    forall i: nat | i < n + 1
      ensures LinkOk(c', chain', data', i)
    {
      if i < n {
        assert LinkOk(c, chain, data, i);
        assert chain[i] != r && (i < n - 1 ==> chain[i] != chain[n - 1]);
      } else {
        assert SlotOk(c, chain, r);
      }
    }
  }

  /** Sending appends exactly one message and leaves every queued message as it was. */
  lemma EnqueueAppends(m: Region, chain: seq<Ref>, data: seq<seq<byte>>, r: Ref, s: seq<byte>)
    requires Represents(Abs(m), chain, data) && IsSlot(r) && r !in chain
    requires SLOT_HEADER + |s| <= SlotSize(r.pool)
    ensures Storable(RefAt(m, TAIL))
    ensures Represents(Abs(Enqueue(m, r, s)), chain + [r], data + [s])
  {
    assert chain != [] ==> LinkOk(Abs(m), chain, data, |chain| - 1);
    AbsLink(m, r);
    AbsOccupy(Link(m, r), r, s);
    EnqueueCellsAppends(Abs(m), chain, data, r, s);
  }

  lemma RefBytes(m: Region, at: nat, r: Ref)
    requires IsSlot(r) && at + 8 <= REGION && Load(m, at, 8) == EncodeRef(r)
    ensures HostWordAt(m, at, r.pool) && HostWordAt(m, at + 4, r.slot)
  {
    assert forall i :: 0 <= i < 8 ==> m[at + i] == EncodeRef(r)[i];
  }

  lemma KeptWord(m: Region, at: nat, s: seq<byte>, a: nat, b: nat)
    requires at + |s| <= REGION && a + 8 <= REGION && b + 8 <= REGION
    requires (a + 8 <= at || at + |s| <= a) && (b + 8 <= at || at + |s| <= b)
    ensures Load(Store(m, at, s), a, 8) == Load(m, a, 8) && Load(Store(m, at, s), b, 8) == Load(m, b, 8)
  {
    LoadAfterStore(m, at, s, a, 8);
    LoadAfterStore(m, at, s, b, 8);
  }

  /** Four stores of a send at plain addresses: two links, the mark of the slot at `a`, the message. */
  ghost function SendStores(m: Region, link: nat, e: seq<byte>, a: nat, s: seq<byte>): Region
    requires |e| == 8 && link + 8 <= REGION && 128 <= a && a + 32 + |s| <= REGION
  {
    Store(Store(Store(Store(m, link, e), 12, e), a + 9, [1]), a + 32, s)
  }

  lemma SendStoresWords(m: Region, link: nat, e: seq<byte>, a: nat, s: seq<byte>)
    requires |e| == 8 && link + 8 <= REGION && 128 <= a && a + 32 + |s| <= REGION
    requires (link + 8 <= 12 || 20 <= link) && (link + 8 <= a || a + 32 + |s| <= link)
    ensures Load(SendStores(m, link, e, a, s), link, 8) == e == Load(SendStores(m, link, e, a, s), 12, 8)
  {
    var m1 := Store(m, link, e);
    var m2 := Store(m1, 12, e);
    LoadAfterStore(m, link, e, link, 8);
    LoadAfterStore(m1, 12, e, link, 8);
    LoadAfterStore(m1, 12, e, 12, 8);
    KeptWord(m2, a + 9, [1], link, 12);
    KeptWord(Store(m2, a + 9, [1]), a + 32, s, link, 12);
  }

  lemma SendStoresSlot(m: Region, link: nat, e: seq<byte>, a: nat, s: seq<byte>)
    requires |e| == 8 && link + 8 <= REGION && 128 <= a && a + 32 + |s| <= REGION
    ensures var m' := SendStores(m, link, e, a, s);
            m'[a + 9] == 1 && Load(m', a + 32, |s|) == s
  {
    var m3 := Store(Store(Store(m, link, e), 12, e), a + 9, [1]);
    assert m3[a + 9] == 1;
    LoadAfterStore(m3, a + 32, s, a + 32, |s|);
  }

  ghost function LinkAddress(tail: Ref): nat
    requires Storable(tail)
  {
    if tail == NONE then 4 else Addr(tail)
  }

  lemma EnqueueStores(m: Region, r: Ref, s: seq<byte>)
    requires IsSlot(r) && SLOT_HEADER + |s| <= SlotSize(r.pool)
    requires Storable(RefAt(m, TAIL)) && RefAt(m, TAIL) != r
    ensures var link, a := LinkAddress(RefAt(m, TAIL)), Addr(r);
            && link + 8 <= REGION && 128 <= a && a + 32 + |s| <= REGION
            && (link + 8 <= 12 || 20 <= link) && (link + 8 <= a || a + 32 + |s| <= link)
            && Enqueue(m, r, s) == SendStores(m, link, EncodeRef(r), a, s)
  {
    var tail := RefAt(m, TAIL);
    SlotsDisjoint(r, r);
    if tail != NONE {
      SlotsDisjoint(tail, r);
      SlotsDisjoint(tail, tail);
    }
  }

  /** The two words at `at` name slot `r`. */
  ghost predicate Names(m: Region, at: nat, r: Ref)
    requires IsSlot(r) && at + 8 <= REGION
  {
    HostWordAt(m, at, r.pool) && HostWordAt(m, at + 4, r.slot)
  }

  lemma SendStoresNames(m: Region, link: nat, r: Ref, a: nat, s: seq<byte>)
    requires IsSlot(r) && link + 8 <= REGION && 128 <= a && a + 32 + |s| <= REGION
    requires (link + 8 <= 12 || 20 <= link) && (link + 8 <= a || a + 32 + |s| <= link)
    ensures var m' := SendStores(m, link, EncodeRef(r), a, s);
            Names(m', link, r) && Names(m', 12, r)
  {
    SendStoresWords(m, link, EncodeRef(r), a, s);
    RefBytes(SendStores(m, link, EncodeRef(r), a, s), link, r);
    RefBytes(SendStores(m, link, EncodeRef(r), a, s), 12, r);
  }

  /**
   The bytes a send leaves: tail at 12 names the new slot, and so does head at 4 of a queue that was
   empty, or else the first two words of the slot that was the tail; the slot is marked used in its tenth
   byte and holds the message from its byte 32 on.
   */
  lemma EnqueueBytes(m: Region, r: Ref, s: seq<byte>)
    requires IsSlot(r) && SLOT_HEADER + |s| <= SlotSize(r.pool)
    requires Storable(RefAt(m, TAIL)) && RefAt(m, TAIL) != r
    ensures var m', link := Enqueue(m, r, s), LinkAddress(RefAt(m, TAIL));
            && link + 8 <= REGION && Addr(r) + 32 + |s| <= REGION
            && Names(m', link, r) && Names(m', 12, r)
            && m'[Addr(r) + 9] == 1 && Load(m', Addr(r) + 32, |s|) == s
  {
    var link := LinkAddress(RefAt(m, TAIL));
    EnqueueStores(m, r, s);
    SendStoresNames(m, link, r, Addr(r), s);
    SendStoresSlot(m, link, EncodeRef(r), Addr(r), s);
  }

  // ---- Dequeue -----------------------------------------------------------------------------

  /** Move head past its slot, or empty the queue. */
  function Unlink(m: Region): Region
    requires IsSlot(RefAt(m, HEAD)) && Storable(CellAt(m, RefAt(m, HEAD)).next)
  {
    var h := RefAt(m, HEAD);
    if h == RefAt(m, TAIL) then SetTail(SetHead(m, NONE), NONE) else SetHead(m, CellAt(m, h).next)
  }

  /** Clean up a slot's header. */
  function Vacate(m: Region, r: Ref): Region
    requires IsSlot(r)
  {
    SetNext(SetInUse(m, r, false), r, NONE)
  }

  function Dequeue(m: Region): Region
    requires IsSlot(RefAt(m, HEAD)) && Storable(CellAt(m, RefAt(m, HEAD)).next)
  {
    Vacate(Unlink(m), RefAt(m, HEAD))
  }

  ghost function UnlinkCells(c: Cells): Cells
    requires c.head in c.at
  {
    if c.head == c.tail then c.(head := NONE, tail := NONE) else c.(head := c.at[c.head].next)
  }

  ghost function VacateCells(c: Cells, r: Ref): Cells
    requires r in c.at
  {
    Put(c, r, c.at[r].(inUse := false, next := NONE))
  }

  lemma AbsUnlink(m: Region)
    requires IsSlot(RefAt(m, HEAD)) && Storable(CellAt(m, RefAt(m, HEAD)).next)
    ensures Abs(Unlink(m)) == UnlinkCells(Abs(m))
  {
    if RefAt(m, HEAD) == RefAt(m, TAIL) {
      AbsSetHead(m, NONE);
      AbsSetTail(SetHead(m, NONE), NONE);
    } else {
      AbsSetHead(m, CellAt(m, RefAt(m, HEAD)).next);
    }
  }

  lemma AbsVacate(m: Region, r: Ref)
    requires IsSlot(r)
    ensures Abs(Vacate(m, r)) == VacateCells(Abs(m), r)
  {
    AbsSetInUse(m, r, false);
    AbsSetNext(SetInUse(m, r, false), r, NONE);
    var cell := Abs(m).at[r];
    PutPut(Abs(m), r, cell.(inUse := false), cell.(inUse := false, next := NONE));
  }

  ghost function DequeueCells(c: Cells): Cells
    requires c.head in c.at
  {
    VacateCells(UnlinkCells(c), c.head)
  }

  lemma DequeueCellsDrops(c: Cells, chain: seq<Ref>, data: seq<seq<byte>>)
    requires Represents(c, chain, data) && chain != []
    ensures LinkOk(c, chain, data, 0)
    ensures Represents(DequeueCells(c), chain[1..], data[1..])
  {
    assert LinkOk(c, chain, data, 0);
    var c', chain', data' := DequeueCells(c), chain[1..], data[1..];
    assert chain == [chain[0]] + chain';
    forall q | IsSlot(q)
      ensures SlotOk(c', chain', q)
    {
      assert SlotOk(c, chain, q);
      assert q in chain <==> q in chain' || q == chain[0];
    }
    forall i: nat | i < |chain'|
      ensures LinkOk(c', chain', data', i)
    {
      assert LinkOk(c, chain, data, i + 1);
    }
  }

  /** Receiving drops exactly the oldest message and leaves every other queued message as it was. */
  lemma DequeueDropsFirst(m: Region, chain: seq<Ref>, data: seq<seq<byte>>)
    requires Represents(Abs(m), chain, data) && chain != []
    ensures IsSlot(RefAt(m, HEAD)) && Storable(CellAt(m, RefAt(m, HEAD)).next)
    ensures Represents(Abs(Dequeue(m)), chain[1..], data[1..])
  {
    assert LinkOk(Abs(m), chain, data, 0);
    assert |chain| > 1 ==> LinkOk(Abs(m), chain, data, 1);
    AbsUnlink(m);
    AbsVacate(Unlink(m), RefAt(m, HEAD));
    DequeueCellsDrops(Abs(m), chain, data);
  }

  // ---- Slot search -------------------------------------------------------------------------

  predicate IsFree(m: Region, r: Ref)
    requires IsSlot(r)
  {
    !CellAt(m, r).inUse && CellAt(m, r).next == NONE
  }

  /** Index of the first free slot of a pool from `i` on, or the number of slots. */
  function FirstFree(m: Region, pool: nat, i: nat): (k: nat)
    requires pool < STATIC_POOLS && i <= NumSlots(pool)
    ensures i <= k <= NumSlots(pool)
    ensures k < NumSlots(pool) ==> IsFree(m, Ref(pool, k))
    ensures forall j :: i <= j < k ==> !IsFree(m, Ref(pool, j))
    decreases NumSlots(pool) - i
  {
    if i == NumSlots(pool) || IsFree(m, Ref(pool, i)) then i else FirstFree(m, pool, i + 1)
  }

  /** The first two ints of a slot are -1 exactly if these eight bytes are. */
  lemma NoneBytes(s: seq<byte>)
    requires |s| == 8
    ensures DecodeRef(s) == NONE <==> forall i :: 0 <= i < 8 ==> s[i] == 0xFF
  {
    AllOnes(s[..4]);
    AllOnes(s[4..]);
    assert forall i :: 0 <= i < 8 ==> s[i] == if i < 4 then s[..4][i] else s[4..][i - 4];
    assert forall i :: 0 <= i < 4 ==> s[4..][i] == s[4 + i];
  }

  lemma AllOnes(s: seq<byte>)
    requires |s| == 4
    ensures ToInt32(FromLE32(s)) == -1 <==> forall i :: 0 <= i < 4 ==> s[i] == 0xFF
  {
  }

  /** The search takes a slot exactly if its tenth byte is zero and its first eight are 0xFF. */
  lemma IsFreeBytes(m: Region, r: Ref)
    requires IsSlot(r)
    ensures Addr(r) + 10 <= REGION
    ensures IsFree(m, r) <==> m[Addr(r) + 9] == 0 && forall i :: Addr(r) <= i < Addr(r) + 8 ==> m[i] == 0xFF
  {
    SlotsDisjoint(r, r);
    var s := Block(m, r)[..8];
    NoneBytes(s);
    assert forall i :: Addr(r) <= i < Addr(r) + 8 ==> m[i] == s[i - Addr(r)];
    assert forall i :: 0 <= i < 8 ==> s[i] == m[Addr(r) + i];
  }

  ghost predicate PoolFull(chain: seq<Ref>, pool: nat)
    requires pool < STATIC_POOLS
  {
    forall j :: 0 <= j < NumSlots(pool) ==> Ref(pool, j) in chain
  }

  /** A slot is found unless every slot of the chosen pool is queued, and it is not a queued one. */
  lemma SearchFailsIffPoolFull(m: Region, chain: seq<Ref>, data: seq<seq<byte>>, pool: nat)
    requires Represents(Abs(m), chain, data) && pool < STATIC_POOLS
    ensures FirstFree(m, pool, 0) == NumSlots(pool) <==> PoolFull(chain, pool)
    ensures FirstFree(m, pool, 0) < NumSlots(pool) ==> Ref(pool, FirstFree(m, pool, 0)) !in chain
  {
    forall j | 0 <= j < NumSlots(pool)
      ensures IsFree(m, Ref(pool, j)) <==> Ref(pool, j) !in chain
    {
      assert SlotOk(Abs(m), chain, Ref(pool, j));
    }
  }

  // ---- Initialisation ----------------------------------------------------------------------

  function InitSlot(m: Region, r: Ref): Region
    requires IsSlot(r)
  {
    Vacate(SetPoolType(m, r), r)
  }

  /** The bytes of an initialised slot: no next slot, its pool, not in use. */
  lemma InitBytes(m: Region, r: Ref)
    requires IsSlot(r)
    ensures Addr(r) + 10 <= REGION
    ensures var m' := InitSlot(m, r);
            && (forall i :: Addr(r) <= i < Addr(r) + 8 ==> m'[i] == 0xFF) && m'[Addr(r) + 8] == r.pool && m'[Addr(r) + 9] == 0
            && forall i :: 0 <= i < REGION && !(Addr(r) <= i < Addr(r) + 10) ==> m'[i] == m[i]
  {
    SlotsDisjoint(r, r);
    HeaderStores(m, Addr(r), r.pool);
    assert EncodeRef(NONE) == [0xFF, 0xFF, 0xFF, 0xFF, 0xFF, 0xFF, 0xFF, 0xFF];
  }

  lemma HeaderStores(m: Region, a: nat, pool: byte)
    requires a + 10 <= REGION
    ensures var next := [0xFF, 0xFF, 0xFF, 0xFF, 0xFF, 0xFF, 0xFF, 0xFF];
            var m' := Store(Store(Store(m, a + 8, [pool]), a + 9, [0]), a, next);
            && (forall i :: a <= i < a + 8 ==> m'[i] == 0xFF) && m'[a + 8] == pool && m'[a + 9] == 0
            && forall i :: 0 <= i < REGION && !(a <= i < a + 10) ==> m'[i] == m[i]
  {
    var next := [0xFF, 0xFF, 0xFF, 0xFF, 0xFF, 0xFF, 0xFF, 0xFF];
    var m1 := Store(m, a + 8, [pool]);
    var m2 := Store(m1, a + 9, [0]);
    StoreByte(m, a + 8, pool);
    StoreByte(m1, a + 9, 0);
    assert forall i :: 0 <= i < REGION ==> Store(m2, a, next)[i] == if a <= i < a + 8 then next[i - a] else m2[i];
  }

  lemma StoreByte(m: Region, at: nat, b: byte)
    requires at < REGION
    ensures Store(m, at, [b]) == m[at := b]
  {
  }

  ghost function InitCells(c: Cells, r: Ref): Cells
    requires r in c.at && IsSlot(r)
  {
    Put(c, r, c.at[r].(poolType := r.pool, inUse := false, next := NONE))
  }

  lemma AbsInitSlot(m: Region, r: Ref)
    requires IsSlot(r)
    ensures Abs(InitSlot(m, r)) == InitCells(Abs(m), r)
  {
    AbsSetPoolType(m, r);
    AbsVacate(SetPoolType(m, r), r);
    var cell := Abs(m).at[r];
    PutPut(Abs(m), r, cell.(poolType := r.pool), cell.(poolType := r.pool, inUse := false, next := NONE));
  }

  /** Empty queue; the slots before slot `i` of `pool` are initialised. */
  ghost predicate Ready(c: Cells, pool: nat, i: nat)
  {
    && c.head == NONE == c.tail
    && forall r :: IsSlot(r) && (r.pool < pool || (r.pool == pool && r.slot < i)) ==> SlotOk(c, [], r)
  }

  lemma InitCellsReady(c: Cells, pool: nat, i: nat)
    requires Ready(c, pool, i) && IsSlot(Ref(pool, i)) && Ref(pool, i) in c.at
    ensures Ready(InitCells(c, Ref(pool, i)), pool, i + 1)
  {
    var c' := InitCells(c, Ref(pool, i));
    forall q | IsSlot(q) && (q.pool < pool || (q.pool == pool && q.slot < i + 1))
      ensures SlotOk(c', [], q)
    {
      assert q != Ref(pool, i) ==> SlotOk(c, [], q);
    }
  }

  // ---- Messages ----------------------------------------------------------------------------

  ghost predicate AllAllocatable(msgs: seq<Message>)
  {
    forall i :: 0 <= i < |msgs| ==> Allocatable(msgs[i])
  }

  ghost function Wires(msgs: seq<Message>): (data: seq<seq<byte>>)
    requires AllAllocatable(msgs)
    ensures |data| == |msgs| && forall i :: 0 <= i < |msgs| ==> data[i] == Wire(msgs[i])
  {
    seq(|msgs|, i requires 0 <= i < |msgs| => Wire(msgs[i]))
  }

  lemma WiresEnds(msgs: seq<Message>, msg: Message)
    requires AllAllocatable(msgs) && Allocatable(msg)
    ensures AllAllocatable(msgs + [msg]) && Wires(msgs + [msg]) == Wires(msgs) + [Wire(msg)]
    ensures msgs != [] ==> AllAllocatable(msgs[1..]) && Wires(msgs[1..]) == Wires(msgs)[1..]
  {
  }

  /** The region holds exactly these messages, oldest first, in these slots. */
  ghost predicate Queued(m: Region, chain: seq<Ref>, msgs: seq<Message>)
  {
    AllAllocatable(msgs) && Represents(Abs(m), chain, Wires(msgs))
  }

  lemma EnqueueMessage(m: Region, chain: seq<Ref>, msgs: seq<Message>, r: Ref, msg: Message)
    requires Queued(m, chain, msgs) && IsSlot(r) && r !in chain
    requires Allocatable(msg) && SLOT_HEADER + |Wire(msg)| <= SlotSize(r.pool)
    ensures Storable(RefAt(m, TAIL))
    ensures Queued(Enqueue(m, r, Wire(msg)), chain + [r], msgs + [msg])
  {
    EnqueueAppends(m, chain, Wires(msgs), r, Wire(msg));
    WiresEnds(msgs, msg);
  }

  /** handle_received_message on a slot: unused slots and bad pool types are dropped. */
  function HandleSlot(cell: Cell): Received
  {
    if !cell.inUse || cell.poolType > POOL_UNLIMIT then BadEndpoint else Rebuild(cell.area)
  }

  /** The receiver delivers exactly from a slot in use, of a known pool, with a message in it. */
  lemma SlotDeliversIff(cell: Cell)
    ensures HandleSlot(cell).Delivered? <==> cell.inUse && cell.poolType <= 6 && Rebuild(cell.area).Delivered?
    ensures HandleSlot(cell).Delivered? ==> HandleSlot(cell) == Rebuild(cell.area)
  {
  }

  lemma HeadSlotDelivers(c: Cells, chain: seq<Ref>, data: seq<seq<byte>>, msg: Message)
    requires Represents(c, chain, data) && chain != [] && Allocatable(msg) && data[0] == Wire(msg)
    ensures chain[0] in c.at && HandleSlot(c.at[chain[0]]) == Delivered(msg.(flags := 0))
  {
    assert LinkOk(c, chain, data, 0);
    assert SlotOk(c, chain, chain[0]);
    RebuildWire(c.at[chain[0]].area, msg);
  }

  /**
   Byte-level delivery: with a non-empty queue the receiver finds a slot at head, none of its checks
   fails, it rebuilds the oldest message with fresh flags, and the other messages stay queued.
   */
  lemma DequeueMessage(m: Region, chain: seq<Ref>, msgs: seq<Message>)
    requires Queued(m, chain, msgs) && msgs != []
    ensures chain != [] && RefAt(m, HEAD) == chain[0] && IsSlot(chain[0]) && Storable(CellAt(m, chain[0]).next)
    ensures HandleSlot(CellAt(m, chain[0])) == Delivered(msgs[0].(flags := 0))
    ensures Queued(Dequeue(m), chain[1..], msgs[1..])
  {
    DequeueDropsFirst(m, chain, Wires(msgs));
    HeadSlotDelivers(Abs(m), chain, Wires(msgs), msgs[0]);
    WiresEnds(msgs, msgs[0]);
  }

  // ---- Critical sections -------------------------------------------------------------------

  datatype SendResult = NoSlot | Sent(slot: nat, region: Region)

  /** posixshm_send between the two mutex calls, for a message that fits a static pool. */
  function TrySend(m: Region, msg: Message): SendResult
    requires Allocatable(msg) && PoolFor(Size(msg)) < STATIC_POOLS && Storable(RefAt(m, TAIL))
  {
    SizeClasses(Size(msg));
    var pool := PoolFor(Size(msg));
    var i := FirstFree(m, pool, 0);
    if i == NumSlots(pool) then NoSlot else Sent(i, Enqueue(m, Ref(pool, i), Wire(msg)))
  }

  lemma QueuedEnds(m: Region, chain: seq<Ref>, msgs: seq<Message>)
    requires Queued(m, chain, msgs)
    ensures Storable(RefAt(m, TAIL)) && Storable(RefAt(m, HEAD))
    ensures RefAt(m, HEAD) == NONE <==> msgs == []
    ensures RefAt(m, HEAD) != NONE ==> Storable(CellAt(m, RefAt(m, HEAD)).next)
  {
    if chain != [] {
      assert LinkOk(Abs(m), chain, Wires(msgs), 0);
      assert LinkOk(Abs(m), chain, Wires(msgs), |chain| - 1);
      if |chain| > 1 {
        assert LinkOk(Abs(m), chain, Wires(msgs), 1);
      }
    }
  }

  /** The section fails exactly when the message's pool is full, and otherwise appends the message. */
  lemma TrySendAppends(m: Region, chain: seq<Ref>, msgs: seq<Message>, msg: Message)
    requires Queued(m, chain, msgs) && Allocatable(msg) && PoolFor(Size(msg)) < STATIC_POOLS
    ensures Storable(RefAt(m, TAIL))
    ensures var pool, res := PoolFor(Size(msg)), TrySend(m, msg);
            && (res == NoSlot <==> PoolFull(chain, pool))
            && (res.Sent? ==> Queued(res.region, chain + [Ref(pool, res.slot)], msgs + [msg]))
  {
    QueuedEnds(m, chain, msgs);
    SizeClasses(Size(msg));
    var pool := PoolFor(Size(msg));
    SearchFailsIffPoolFull(m, chain, Wires(msgs), pool);
    var i := FirstFree(m, pool, 0);
    if i < NumSlots(pool) {
      EnqueueMessage(m, chain, msgs, Ref(pool, i), msg);
    }
  }

  datatype ReceiveResult = NothingFound | Took(got: Received, region: Region)

  /** posixshm_rx_thread between the two mutex calls. */
  function TryReceive(m: Region): ReceiveResult
    requires Storable(RefAt(m, HEAD))
    requires RefAt(m, HEAD) != NONE ==> Storable(CellAt(m, RefAt(m, HEAD)).next)
  {
    if RefAt(m, HEAD) == NONE then NothingFound else Took(HandleSlot(CellAt(m, RefAt(m, HEAD))), Dequeue(m))
  }

  /** The section finds nothing exactly on an empty queue, and otherwise yields the oldest message. */
  lemma TryReceiveDrops(m: Region, chain: seq<Ref>, msgs: seq<Message>)
    requires Queued(m, chain, msgs)
    ensures Storable(RefAt(m, HEAD)) && (RefAt(m, HEAD) != NONE ==> Storable(CellAt(m, RefAt(m, HEAD)).next))
    ensures TryReceive(m) == NothingFound <==> msgs == []
    ensures msgs != [] ==> TryReceive(m).got == Delivered(msgs[0].(flags := 0))
    ensures msgs != [] ==> Queued(TryReceive(m).region, chain[1..], msgs[1..])
  {
    QueuedEnds(m, chain, msgs);
    if msgs != [] {
      DequeueMessage(m, chain, msgs);
    }
  }
}
