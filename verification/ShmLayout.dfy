/**
 Static layout of the shared memory of one receiver (itc_posixshm.c): 25 pages holding a
 metadata block and six pools of equal-sized slots, and the choice of the pool for a message.
 */
module ShmLayout {
  import opened Bytes

  const PAGE: nat := 4096
  const REGION: nat := 25 * PAGE
  const SLOT_HEADER: nat := 32
  const MAX_SLOTS: nat := 70
  const STATIC_POOLS: nat := 6
  const POOL_UNLIMIT: nat := 6
  const NUM_POOLS: nat := 7
  /** Header of an itc_message, and header plus ENDPOINT plus slot header. */
  const ITC_HEADER: nat := 16
  const OVERHEAD: nat := ITC_HEADER + 1 + SLOT_HEADER
  const LARGEST_SLOT: nat := 16384
  /** ITC_MAX_MSGSIZE bounds size + header + ENDPOINT in malloc_alloc. */
  const MAX_ALLOC: nat := 10 * 1024 * 1024

  /** A slot reference as the metadata and slot headers store it; (-1,-1) means no slot. */
  datatype Ref = Ref(pool: int, slot: int)
  const NONE := Ref(-1, -1)

  /** num_slots[], slot_sizes[] and pool_offset[] as posixshm_init fills them. */
  function NumSlots(pool: nat): (n: nat)
    requires pool < NUM_POOLS
    ensures 1 <= n <= 31
  {
    match pool case 0 => 31 case 1 => 16 case 2 => 8 case 3 => 8 case 4 => 4 case 5 => 3 case _ => 1
  }

  function SlotSize(pool: nat): int
    requires pool < NUM_POOLS
  {
    match pool case 0 => 128 case 1 => 512 case 2 => 1024 case 3 => 2048 case 4 => 4096 case 5 => 16384 case _ => -1
  }

  function PoolOffset(pool: nat): nat
    requires pool < NUM_POOLS
  {
    match pool
    case 0 => 128 case 1 => PAGE case 2 => 3 * PAGE case 3 => 5 * PAGE
    case 4 => 9 * PAGE case 5 => 13 * PAGE case _ => 25 * PAGE
  }

  predicate IsSlot(r: Ref)
  {
    0 <= r.pool < STATIC_POOLS && 0 <= r.slot < NumSlots(r.pool)
  }

  function Addr(r: Ref): (a: int)
    requires IsSlot(r)
    ensures a >= 0
  {
    PoolOffset(r.pool) + SlotSize(r.pool) * r.slot
  }

  /** The slot that owns a byte of the region behind the metadata block. */
  function SlotAt(a: nat): (r: Ref)
    requires 128 <= a < REGION
    ensures IsSlot(r)
  {
    var pool := if a < PAGE then 0 else if a < 3 * PAGE then 1 else if a < 5 * PAGE then 2
                else if a < 9 * PAGE then 3 else if a < 13 * PAGE then 4 else 5;
    Ref(pool, (a - PoolOffset(pool)) / SlotSize(pool))
  }

  /** The slots tile the region: every byte behind the metadata lies in exactly one slot. */
  lemma SlotsTile(a: nat, r: Ref)
    requires 128 <= a < REGION && IsSlot(r)
    ensures Addr(r) <= a < Addr(r) + SlotSize(r.pool) <==> r == SlotAt(a)
  {
  }

  /** Every slot lies in the region behind the metadata, and distinct slots do not overlap. */
  lemma SlotsDisjoint(r: Ref, q: Ref)
    requires IsSlot(r) && IsSlot(q)
    ensures 128 <= Addr(r) && Addr(r) + SlotSize(r.pool) <= REGION
    ensures SLOT_HEADER < SlotSize(r.pool)
    ensures r != q ==> Addr(r) + SlotSize(r.pool) <= Addr(q) || Addr(q) + SlotSize(q.pool) <= Addr(r)
  {
    if r != q && Addr(r) <= Addr(q) < Addr(r) + SlotSize(r.pool) {
      SlotsTile(Addr(q), r);
      SlotsTile(Addr(q), q);
    }
    if r != q && Addr(q) <= Addr(r) < Addr(q) + SlotSize(q.pool) {
      SlotsTile(Addr(r), r);
      SlotsTile(Addr(r), q);
    }
  }

  /** The counting semaphore admits one sender per static slot. */
  lemma SlotsCounted()
    ensures MAX_SLOTS == NumSlots(0) + NumSlots(1) + NumSlots(2) + NumSlots(3) + NumSlots(4) + NumSlots(5)
  {
  }

  /** Bytes a message needs in a slot, in the uint32_t arithmetic of posixshm_send. */
  function Need(size: u32): u32
  {
    (size + OVERHEAD) % 0x1_0000_0000
  }

  predicate Accepts(pool: nat, size: u32)
    requires pool < NUM_POOLS
  {
    SlotSize(pool) > 0 && Need(size) <= SlotSize(pool)
  }

  /** The first pool from `p` on that accepts the message, POOL_UNLIMIT when there is none. */
  function FirstFit(size: u32, p: nat): (pool: nat)
    requires p <= NUM_POOLS
    ensures pool <= POOL_UNLIMIT
    ensures pool < POOL_UNLIMIT ==> p <= pool && Accepts(pool, size)
    ensures forall q: nat :: p <= q < pool ==> !Accepts(q, size)
    decreases NUM_POOLS - p
  {
    if p == NUM_POOLS then POOL_UNLIMIT else if Accepts(p, size) then p else FirstFit(size, p + 1)
  }

  function PoolFor(size: u32): nat
  {
    FirstFit(size, 0)
  }

  /** num_unlimit_pages is a uint16_t. */
  function UnlimitPages(size: u32): nat
  {
    (Need(size) / PAGE + 1) % 0x1_0000
  }

  /** The pool loop: first class that accepts the message, POOL_UNLIMIT with a page count otherwise. */
  method ChoosePool(size: u32) returns (pool: nat, pages: nat)
    ensures pool == PoolFor(size)
    ensures pages == if pool == POOL_UNLIMIT then UnlimitPages(size) else 0
  {
    pool, pages := 0, 0;
    while pool < NUM_POOLS
      invariant pool <= NUM_POOLS
      invariant FirstFit(size, pool) == PoolFor(size)
    {
      if SlotSize(pool) > 0 && Need(size) <= SlotSize(pool) {
        break;
      }
      pool := pool + 1;
    }
    if pool == NUM_POOLS {
      pool, pages := POOL_UNLIMIT, (Need(size) / PAGE + 1) % 0x1_0000;
    }
  }

  /** posixshm_send remaps the file for POOL_UNLIMIT with more pages than the largest slot has. */
  predicate TakesUnlimitBranch(size: u32)
  {
    PoolFor(size) == POOL_UNLIMIT && UnlimitPages(size) > SlotSize(5) / PAGE
  }

  /**
   For every size the allocator admits the chosen class is the smallest that holds slot header,
   message and ENDPOINT; the slot search is taken exactly for static pools; and the page count of
   a larger message covers it and fits the 16-bit fields of the metadata.
   */
  lemma SizeClasses(size: u32)
    requires size + ITC_HEADER + 1 <= MAX_ALLOC
    ensures PoolFor(size) == POOL_UNLIMIT <==> size + OVERHEAD > LARGEST_SLOT
    ensures PoolFor(size) < POOL_UNLIMIT ==> size + OVERHEAD <= SlotSize(PoolFor(size))
    ensures forall q: nat :: q < PoolFor(size) && q < STATIC_POOLS ==> SlotSize(q) < size + OVERHEAD
    ensures TakesUnlimitBranch(size) <==> PoolFor(size) == POOL_UNLIMIT
    ensures PoolFor(size) == POOL_UNLIMIT ==>
              && 4 < UnlimitPages(size) && 25 + UnlimitPages(size) < 0x1_0000
              && (UnlimitPages(size) - 1) * 4096 <= size + 49 < UnlimitPages(size) * 4096
  {
    assert Need(size) == size + OVERHEAD;
    var pool := PoolFor(size);
    assert forall q: nat :: q < pool && q < STATIC_POOLS ==> SlotSize(q) > 0 && !Accepts(q, size);
    assert pool == POOL_UNLIMIT ==> !Accepts(5, size);
  }

  /**
   The uint32_t sum can wrap: among all sizes a size_t field can hold, a static slot really has room
   for the message exactly when size + 49 does not wrap, which the allocator's bound guarantees.
   */
  lemma StaticSlotFitsIff(size: u32)
    requires PoolFor(size) < POOL_UNLIMIT
    ensures size + OVERHEAD <= SlotSize(PoolFor(size)) <==> size + OVERHEAD < 0x1_0000_0000
  {
    assert Accepts(PoolFor(size), size);
    assert SlotSize(PoolFor(size)) <= LARGEST_SLOT;
  }
}
