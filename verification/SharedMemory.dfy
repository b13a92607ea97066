/**
 The receiver's mapped region as an object: initialisation and the two critical sections of
 itc_posixshm.c, in place on the bytes.
 */
module SharedMemory {
  import opened Bytes
  import opened ShmLayout
  import opened Messages
  import opened ShmMemory
  import opened ShmQueue

  class Shm {
    const mem: array<byte>

    ghost predicate Valid()
    {
      mem.Length == REGION
    }

    /** init_posixshm_mempool: an empty queue over unused slots, whatever the pages held before. */
    constructor ()
      ensures Valid() && fresh(mem)
      ensures Queued(mem[..], [], [])
    {
      mem := new byte[REGION];
      new;
      AbsSetHead(mem[..], NONE);
      AbsSetTail(SetHead(mem[..], NONE), NONE);
      Copy(mem, HEAD, EncodeRef(NONE));
      Copy(mem, TAIL, EncodeRef(NONE));
      var pool := 0;
      while pool < STATIC_POOLS
        invariant pool <= STATIC_POOLS && Ready(Abs(mem[..]), pool, 0)
      {
        InitPool(pool);
        pool := pool + 1;
      }
      assert Wires([]) == [];
    }

    method InitPool(pool: nat)
      requires Valid() && pool < STATIC_POOLS && Ready(Abs(mem[..]), pool, 0)
      modifies mem
      ensures Ready(Abs(mem[..]), pool + 1, 0)
    {
      var i := 0;
      while i < NumSlots(pool)
        invariant i <= NumSlots(pool) && Ready(Abs(mem[..]), pool, i)
      {
        AbsInitSlot(mem[..], Ref(pool, i));
        InitCellsReady(Abs(mem[..]), pool, i);
        InitHeader(Ref(pool, i));
        i := i + 1;
      }
    }

    method InitHeader(r: Ref)
      requires Valid() && IsSlot(r)
      modifies mem
      ensures mem[..] == InitSlot(old(mem[..]), r)
    {
      SlotsDisjoint(r, r);
      Copy(mem, Addr(r) + POOL_TYPE, [r.pool]);
      Copy(mem, Addr(r) + IN_USE, [0]);
      Copy(mem, Addr(r), EncodeRef(NONE));
    }

    /** The slot search of posixshm_send. */
    method FindSlot(pool: nat) returns (i: nat)
      requires Valid() && pool < STATIC_POOLS
      ensures i == FirstFree(mem[..], pool, 0)
    {
      i := 0;
      while i < NumSlots(pool)
        invariant i <= NumSlots(pool)
        invariant FirstFree(mem[..], pool, i) == FirstFree(mem[..], pool, 0)
      {
        if IsFree(mem[..], Ref(pool, i)) {
          return;
        }
        i := i + 1;
      }
    }

    method LinkSlot(r: Ref)
      requires Valid() && IsSlot(r) && Storable(RefAt(mem[..], TAIL))
      modifies mem
      ensures mem[..] == Link(old(mem[..]), r)
    {
      var tail := RefAt(mem[..], TAIL);
      if tail == NONE {
        Copy(mem, HEAD, EncodeRef(r));
      } else {
        SlotsDisjoint(tail, tail);
        Copy(mem, Addr(tail), EncodeRef(r));
      }
      Copy(mem, TAIL, EncodeRef(r));
    }

    method OccupySlot(r: Ref, s: seq<byte>)
      requires Valid() && IsSlot(r) && SLOT_HEADER + |s| <= SlotSize(r.pool)
      modifies mem
      ensures mem[..] == Occupy(old(mem[..]), r, s)
    {
      SlotsDisjoint(r, r);
      Copy(mem, Addr(r) + IN_USE, [1]);
      Copy(mem, Addr(r) + SLOT_HEADER, s);
    }

    method UnlinkHead()
      requires Valid() && IsSlot(RefAt(mem[..], HEAD)) && Storable(CellAt(mem[..], RefAt(mem[..], HEAD)).next)
      modifies mem
      ensures mem[..] == Unlink(old(mem[..]))
    {
      var h := RefAt(mem[..], HEAD);
      if h == RefAt(mem[..], TAIL) {
        Copy(mem, HEAD, EncodeRef(NONE));
        Copy(mem, TAIL, EncodeRef(NONE));
      } else {
        Copy(mem, HEAD, EncodeRef(CellAt(mem[..], h).next));
      }
    }

    method VacateSlot(r: Ref)
      requires Valid() && IsSlot(r)
      modifies mem
      ensures mem[..] == Vacate(old(mem[..]), r)
    {
      SlotsDisjoint(r, r);
      Copy(mem, Addr(r) + IN_USE, [0]);
      Copy(mem, Addr(r), EncodeRef(NONE));
    }

    /** The critical section of posixshm_send for a static pool. */
    method Send(msg: Message) returns (ok: bool, ghost res: SendResult)
      requires Valid() && Storable(RefAt(mem[..], TAIL))
      requires Allocatable(msg) && PoolFor(Size(msg)) < STATIC_POOLS
      modifies mem
      ensures res == TrySend(old(mem[..]), msg) && (ok <==> res.Sent?)
      ensures mem[..] == if ok then res.region else old(mem[..])
    {
      SizeClasses(Size(msg));
      res := TrySend(mem[..], msg);
      var pool, pages := ChoosePool(Size(msg));
      var slot := FindSlot(pool);
      ok := slot < NumSlots(pool);
      if ok {
        LinkSlot(Ref(pool, slot));
        OccupySlot(Ref(pool, slot), Wire(msg));
      }
    }

    /** The critical section of posixshm_rx_thread. */
    method Receive() returns (found: bool, got: Received, ghost res: ReceiveResult)
      requires Valid() && Storable(RefAt(mem[..], HEAD))
      requires RefAt(mem[..], HEAD) != NONE ==> Storable(CellAt(mem[..], RefAt(mem[..], HEAD)).next)
      modifies mem
      ensures res == TryReceive(old(mem[..])) && (found <==> res.Took?)
      ensures found ==> got == res.got
      ensures mem[..] == if found then res.region else old(mem[..])
    {
      res := TryReceive(mem[..]);
      got := BadEndpoint;
      var h := RefAt(mem[..], HEAD);
      found := h.pool != -1 && h.slot != -1;
      if found {
        got := HandleSlot(CellAt(mem[..], h));
        UnlinkHead();
        VacateSlot(h);
      }
    }
  }
}
