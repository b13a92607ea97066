/**
 Mailbox ids: bits 20..31 name the process (the coordinator's slot), the low bits the mailbox.  itc.c
 finds the mailbox with a mask derived from the number of mailboxes; itc_local.c has a table with one
 entry per value of that mask and a range test of its own.
 */
module MailboxIds {
  import opened Bytes
  import opened Bits
  import opened LinkedList

  const COORD_MASK: u32 := 0xFFF0_0000
  const ITC_MAX_MAILBOXES: u32 := 65534

  /** __builtin_clz: leading zeros of a 32-bit word. */
  function CountLeadingZeros(x: u32): (c: nat)
    requires x > 0
    ensures c <= 31 && Pow2(31 - c) <= x < Pow2(32 - c)
    decreases 0x1_0000_0000 - x
  {
    Powers();
    if x >= 0x8000_0000 then 0 else 1 + CountLeadingZeros(2 * x)
  }

  /** local_mbox_mask, computed alike by itc_init and local_init. */
  function Mask(nrMboxes: u32): nat
    requires nrMboxes > 0
  {
    ShiftRight(0xFFFF_FFFF, CountLeadingZeros(nrMboxes))
  }

  /** Number of bits of the mask. */
  function Width(nrMboxes: u32): (k: nat)
    requires nrMboxes > 0
  {
    32 - CountLeadingZeros(nrMboxes)
  }

  /** A number of k bits: 2^k - 1 is the least mask for it. */
  lemma LeastOnes(n: nat, k: nat, j: nat)
    requires k > 0 && Pow2(k - 1) <= n < Pow2(k)
    ensures n <= Ones(j) <==> k <= j
    ensures k <= j ==> Ones(k) <= Ones(j)
  {
    if j < k {
      Pow2Monotone(j, k - 1);
    } else {
      Pow2Monotone(k, j);
    }
  }

  /** The mask is the least 2^k - 1 that is not below the number of mailboxes. */
  lemma MaskIsLeast(nrMboxes: u32, j: nat)
    requires nrMboxes > 0
    ensures Mask(nrMboxes) == Ones(Width(nrMboxes)) >= nrMboxes && Width(nrMboxes) > 0
    ensures nrMboxes <= Ones(j) <==> Mask(nrMboxes) <= Ones(j)
    ensures nrMboxes <= 65535 ==> Width(nrMboxes) <= 16 && Mask(nrMboxes) <= 65535
  {
    var k := Width(nrMboxes);
    Powers();
    ShiftOnes(32, 32 - k);
    LeastOnes(nrMboxes, k, j);
    LeastOnes(nrMboxes, k, 16);
  }

  // ---- The two lookups ---------------------------------------------------------------------

  /** find_mbox: index of the mailbox in itc_inst.mboxes. */
  function FindMbox(process: u32, nrMboxes: u32, id: u32): Option<nat>
    requires nrMboxes > 0
  {
    var index := And(id, Mask(nrMboxes));
    if And(id, COORD_MASK) == process && index < nrMboxes then Some(index) else None
  }

  /** find_localmbx_data: index into the local transport's table of Mask + 1 entries. */
  function FindLocal(process: u32, nrMboxes: u32, id: u32): Option<nat>
    requires nrMboxes > 0
  {
    if And(id, COORD_MASK) != process || And(id, ITC_MAX_MAILBOXES) >= Mask(nrMboxes) + 1 then None
    else Some(And(id, Mask(nrMboxes)))
  }

  /** The id of a process has no bits but those of the coordinator's mask. */
  predicate IsProcess(process: u32)
  {
    And(process, COORD_MASK) == process
  }

  /** The ids the coordinator gives out, index << 20, are such ids. */
  lemma SlotIdIsProcess(index: nat)
    requires index < 0x1000
    ensures ShiftLeft(index, 20) < 0x1_0000_0000 && IsProcess(ShiftLeft(index, 20))
  {
    assert Ones(12) == 0xFFF;
    AndOnes(index, 12);
    AndShifted(index, 0xFFF, 20);
    Powers();
    ShiftIsProduct(index, 20);
    ShiftIsProduct(0xFFF, 20);
  }

  lemma EvenBelow(x: nat, p: nat)
    ensures 2 * (x / 2) < 2 * p <==> x < 2 * p
  {
  }

  /** Testing the low 16 bits without bit 0 against a power of two is as good as testing all of them. */
  lemma RangeTest(id: nat, k: nat)
    requires 0 < k <= 16
    ensures And(id, ITC_MAX_MAILBOXES) < Ones(k) + 1 <==> And(id, 0xFFFF) <= Ones(k)
    ensures And(id, 0xFFFF) <= Ones(k) ==> And(id, Ones(k)) == And(id, 0xFFFF)
  {
    Powers();
    AndWithoutBit0(id, 0x7FFF);
    EvenBelow(And(id, 0xFFFF), Pow2(k - 1));
    if And(id, 0xFFFF) < Pow2(k) {
      AndNarrower(id, k, 16);
    }
  }

  /**
   For every 32-bit id: the local transport accepts it exactly when the process matches and the low 16
   bits lie inside its table, although the range test ignores bit 0; the entry is then the one of those
   16 bits, and if that entry can have an rx queue, find_mbox leads to the same index.
   */
  lemma TablesAgree(process: u32, nrMboxes: u32, id: u32)
    requires 1 <= nrMboxes <= 65535
    ensures FindLocal(process, nrMboxes, id).Some? <==>
              And(id, COORD_MASK) == process && And(id, 0xFFFF) <= Mask(nrMboxes)
    ensures FindLocal(process, nrMboxes, id).Some? ==> FindLocal(process, nrMboxes, id) == Some(And(id, 0xFFFF))
    ensures FindLocal(process, nrMboxes, id).Some? && And(id, 0xFFFF) < nrMboxes ==>
              FindMbox(process, nrMboxes, id) == FindLocal(process, nrMboxes, id)
  {
    MaskIsLeast(nrMboxes, 0);
    RangeTest(id, Width(nrMboxes));
  }

  /** Process bits and 16 mailbox bits of an id put together by Or come apart again by And. */
  lemma ComposedId(process: u32, i: nat)
    requires IsProcess(process) && i <= 0xFFFF
    ensures And(Or(process, i), COORD_MASK) == process && And(Or(process, i), 0xFFFF) == i
  {
    AndOverOr(process, i, COORD_MASK);
    AndOverOr(process, i, 0xFFFF);
    Powers();
    assert 0xFFF * Pow2(20) == COORD_MASK;
    DisjointBits(0xFFF, 20, i);
    AndCommutes(i, COORD_MASK);
    AndOnes(i, 16);
    AndAssociates(process, COORD_MASK, 0xFFFF);
    DisjointBits(0xFFF, 20, 0xFFFF);
  }

  /** Every issued id (process | i) leads to index i in both tables. */
  lemma IssuedIdDecodes(process: u32, nrMboxes: u32, i: nat)
    requires 1 <= nrMboxes <= 65535 && i < nrMboxes && IsProcess(process)
    ensures FindMbox(process, nrMboxes, Or(process, i)) == Some(i)
    ensures FindLocal(process, nrMboxes, Or(process, i)) == Some(i)
  {
    ComposedId(process, i);
    MaskIsLeast(nrMboxes, 0);
    TablesAgree(process, nrMboxes, Or(process, i));
  }

  /** The bits of an id apart from 16..19 are its process bits and its 16 mailbox bits. */
  lemma UsedBits(id: u32)
    ensures And(id, 0xFFF0_FFFF) == Or(And(id, COORD_MASK), And(id, 0xFFFF))
    ensures IsProcess(And(id, COORD_MASK))
  {
    var all: nat := 0xFFF0_FFFF;
    Powers();
    DisjointBits(0xFFF, 20, 0xFFFF);
    assert Or(COORD_MASK, 0xFFFF) == all;
    AndOverOr(COORD_MASK, 0xFFFF, id);
    AndCommutes(COORD_MASK, id);
    AndCommutes(0xFFFF, id);
    AndCommutes(all, id);
    AndAssociates(id, COORD_MASK, COORD_MASK);
    AndSelf(COORD_MASK);
  }

  lemma SplitIdIff(process: u32, id: u32, i: nat)
    requires IsProcess(process) && i <= 0xFFFF
    ensures And(id, 0xFFF0_FFFF) == Or(process, i) <==> And(id, COORD_MASK) == process && And(id, 0xFFFF) == i
  {
    UsedBits(id);
    ComposedId(process, i);
    ComposedId(And(id, COORD_MASK), And(id, 0xFFFF));
  }

  /**
   Both tables lead to the same mailbox exactly for its issued id and the ids that differ from it in
   the unused bits 16..19 only.
   */
  lemma SameMailboxIff(process: u32, nrMboxes: u32, id: u32, i: nat)
    requires 1 <= nrMboxes <= 65535 && i < nrMboxes && IsProcess(process)
    ensures FindMbox(process, nrMboxes, id) == Some(i) && FindLocal(process, nrMboxes, id) == Some(i)
            <==> And(id, 0xFFF0_FFFF) == Or(process, i)
  {
    TablesAgree(process, nrMboxes, id);
    MaskIsLeast(nrMboxes, 0);
    SplitIdIff(process, id, i);
  }

  /**
   find_mbox alone is not injective on ids of the process: it finds a mailbox for an id that the local
   transport refuses exactly when the id's 16 bits exceed the mask but wrap onto a mailbox.
   */
  lemma OnlyFindMboxIff(process: u32, nrMboxes: u32, id: u32)
    requires 1 <= nrMboxes <= 65535
    ensures FindMbox(process, nrMboxes, id).Some? && FindLocal(process, nrMboxes, id) == None
            <==> And(id, COORD_MASK) == process && And(id, 0xFFFF) > Mask(nrMboxes) && And(id, Mask(nrMboxes)) < nrMboxes
  {
    TablesAgree(process, nrMboxes, id);
  }

  /** A mask inside the low 16 bits needs these bits only. */
  lemma AndLow(id: nat, k: nat)
    requires k <= 16
    ensures And(id, Ones(k)) == And(And(id, 0xFFFF), Ones(k))
  {
    Powers();
    Pow2Monotone(k, 16);
    AndAssociates(id, 0xFFFF, Ones(k));
    AndOnes(Ones(k), 16);
    AndCommutes(0xFFFF, Ones(k));
  }

  lemma MaskOfFive()
    ensures Mask(5) == Ones(3) == 7
  {
    assert Pow2(3) == 8;
    MaskIsLeast(5, 3);
    LeastOnes(5, Width(5), 2);
    LeastOnes(5, Width(5), 3);
  }

  /** Such an id: mailbox number 10 of a process with 5 mailboxes, which find_mbox takes for number 2. */
  lemma OnlyFindMboxExample(process: u32)
    requires IsProcess(process)
    ensures FindMbox(process, 5, Or(process, 10)) == Some(2) && FindLocal(process, 5, Or(process, 10)) == None
  {
    MaskOfFive();
    ComposedId(process, 10);
    TablesAgree(process, 5, Or(process, 10));
    AndLow(Or(process, 10), 3);
    assert And(10, 7) == 2;
  }
}
