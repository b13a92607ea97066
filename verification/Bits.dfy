/**
 Bitwise operations on natural numbers, bit by bit, with the laws that masks need.
 */
module Bits {

  function Pow2(k: nat): (p: nat)
    ensures p > 0
  {
    if k == 0 then 1 else 2 * Pow2(k - 1)
  }

  /** 2^k - 1 */
  function Ones(k: nat): nat
  {
    Pow2(k) - 1
  }

  function And(a: nat, b: nat): (r: nat)
    ensures r <= a && r <= b
  {
    if a == 0 || b == 0 then 0 else 2 * And(a / 2, b / 2) + if a % 2 == 1 && b % 2 == 1 then 1 else 0
  }

  function Or(a: nat, b: nat): (r: nat)
    ensures r <= a + b
  {
    if a == 0 then b else if b == 0 then a
    else 2 * Or(a / 2, b / 2) + if a % 2 == 1 || b % 2 == 1 then 1 else 0
  }

  function ShiftRight(a: nat, c: nat): nat
  {
    if c == 0 then a else ShiftRight(a / 2, c - 1)
  }

  function ShiftLeft(a: nat, c: nat): nat
  {
    if c == 0 then a else 2 * ShiftLeft(a, c - 1)
  }

  lemma Powers()
    ensures Pow2(16) == 0x1_0000 && Pow2(20) == 0x10_0000 && Pow2(31) == 0x8000_0000 && Pow2(32) == 0x1_0000_0000
  {
    assert Pow2(8) == 0x100;
    assert Pow2(12) == 0x1000;
    assert Pow2(16) == 0x1_0000;
    assert Pow2(20) == 0x10_0000;
    assert Pow2(24) == 0x100_0000;
    assert Pow2(28) == 0x1000_0000;
  }

  lemma {:induction false} Pow2Monotone(j: nat, k: nat)
    requires j <= k
    ensures Pow2(j) <= Pow2(k)
  {
    if j < k {
      Pow2Monotone(j, k - 1);
    }
  }

  lemma {:induction false} ShiftOnes(k: nat, c: nat)
    requires c <= k
    ensures ShiftRight(Ones(k), c) == Ones(k - c)
    decreases c
  {
    if c > 0 {
      assert Ones(k) / 2 == Ones(k - 1);
      ShiftOnes(k - 1, c - 1);
    }
  }

  lemma {:induction false} AndCommutes(a: nat, b: nat)
    ensures And(a, b) == And(b, a)
  {
    if a != 0 && b != 0 {
      AndCommutes(a / 2, b / 2);
    }
  }

  /** One step of And, also where an operand is zero. */
  lemma {:induction false} AndStep(a: nat, b: nat)
    ensures And(a, b) / 2 == And(a / 2, b / 2) && And(a, b) % 2 == if a % 2 == 1 && b % 2 == 1 then 1 else 0
  {
  }

  lemma {:induction false} OrStep(a: nat, b: nat)
    ensures Or(a, b) / 2 == Or(a / 2, b / 2) && Or(a, b) % 2 == if a % 2 == 1 || b % 2 == 1 then 1 else 0
  {
  }

  /** A mask without bit 0 drops bit 0 from what the full mask leaves. */
  lemma {:induction false} AndWithoutBit0(x: nat, b: nat)
    ensures And(x, 2 * b) == 2 * (And(x, 2 * b + 1) / 2)
  {
    var even, odd := 2 * b, 2 * b + 1;
    assert even / 2 == b && odd / 2 == b && even % 2 == 0;
    AndStep(x, even);
    AndStep(x, odd);
  }

  lemma {:induction false} AndAssociates(a: nat, b: nat, c: nat)
    ensures And(And(a, b), c) == And(a, And(b, c))
    decreases a
  {
    if a != 0 {
      AndAssociates(a / 2, b / 2, c / 2);
      AndStep(a, b); AndStep(b, c); AndStep(And(a, b), c); AndStep(a, And(b, c));
    }
  }

  lemma {:induction false} AndOverOr(a: nat, b: nat, c: nat)
    ensures And(Or(a, b), c) == Or(And(a, c), And(b, c))
    decreases c
  {
    if c != 0 {
      AndOverOr(a / 2, b / 2, c / 2);
      AndStep(a, c); AndStep(b, c); OrStep(a, b); AndStep(Or(a, b), c); OrStep(And(a, c), And(b, c));
    }
  }

  /** A number shifted by k has no bit in common with a number below 2^k. */
  lemma {:induction false} AndShiftedLow(a: nat, k: nat, b: nat)
    requires b < Pow2(k)
    ensures And(ShiftLeft(a, k), b) == 0
    decreases k
  {
    if k > 0 {
      AndShiftedLow(a, k - 1, b / 2);
      AndStep(ShiftLeft(a, k), b);
    }
  }

  lemma {:induction false} OrShiftedLow(a: nat, k: nat, b: nat)
    requires b < Pow2(k)
    ensures Or(ShiftLeft(a, k), b) == ShiftLeft(a, k) + b
    decreases k
  {
    if k > 0 {
      OrShiftedLow(a, k - 1, b / 2);
      OrStep(ShiftLeft(a, k), b);
    }
  }

  /** A multiple of 2^k and a number below 2^k: no common bit, and their union is their sum. */
  lemma DisjointBits(a: nat, k: nat, b: nat)
    requires b < Pow2(k)
    ensures And(a * Pow2(k), b) == 0
    ensures Or(a * Pow2(k), b) == a * Pow2(k) + b
  {
    ShiftIsProduct(a, k);
    AndShiftedLow(a, k, b);
    OrShiftedLow(a, k, b);
  }

  lemma {:induction false} AndOnes(i: nat, k: nat)
    requires i < Pow2(k)
    ensures And(i, Ones(k)) == i
    decreases k
  {
    if k > 0 {
      AndOnes(i / 2, k - 1);
      AndStep(i, Ones(k));
    }
  }

  /** A narrower mask leaves unchanged what already fits it. */
  lemma {:induction false} AndNarrower(x: nat, k: nat, j: nat)
    requires k <= j && And(x, Ones(j)) < Pow2(k)
    ensures And(x, Ones(k)) == And(x, Ones(j))
    decreases k
  {
    if k > 0 {
      AndStep(x, Ones(j));
      AndStep(x, Ones(k));
      assert Ones(j) / 2 == Ones(j - 1) && Ones(k) / 2 == Ones(k - 1);
      AndNarrower(x / 2, k - 1, j - 1);
    }
  }

  lemma {:induction false} AndSelf(a: nat)
    ensures And(a, a) == a
  {
    if a != 0 {
      AndSelf(a / 2);
    }
  }

  lemma {:induction false} AndDoubled(a: nat, b: nat)
    ensures And(2 * a, 2 * b) == 2 * And(a, b)
  {
  }

  lemma {:induction false} AndShifted(a: nat, b: nat, k: nat)
    ensures And(ShiftLeft(a, k), ShiftLeft(b, k)) == ShiftLeft(And(a, b), k)
    decreases k
  {
    if k > 0 {
      AndShifted(a, b, k - 1);
      AndDoubled(ShiftLeft(a, k - 1), ShiftLeft(b, k - 1));
    }
  }

  lemma {:induction false} ShiftIsProduct(a: nat, k: nat)
    ensures ShiftLeft(a, k) == a * Pow2(k)
    decreases k
  {
    if k > 0 {
      ShiftIsProduct(a, k - 1);
    }
  }
}
