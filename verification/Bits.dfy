/** Unsigned integers as bits. */
module Bits {
  import opened Common

  function Pow2(k: nat): (r: nat)
    ensures r > 0
  {
    if k == 0 then 1 else 2 * Pow2(k - 1)
  }

  /** Bitwise or. */
  function Or(a: nat, b: nat): nat
    decreases a + b
  {
    if a == 0 && b == 0 then 0
    else (if a % 2 == 1 || b % 2 == 1 then 1 else 0) + 2 * Or(a / 2, b / 2)
  }

  function ShiftRight(v: nat, k: nat): nat {
    Div(v, Pow2(k))
  }

  /** Shift of a word of `width` bits. */
  function ShiftLeft(v: nat, k: nat, width: nat): nat {
    v * Pow2(k) % Pow2(width)
  }

  predicate Bit(x: nat, i: nat)
    decreases i
  {
    if i == 0 then x % 2 == 1 else Bit(x / 2, i - 1)
  }

  lemma {:induction false} Pow2Monotone(j: nat, k: nat)
    requires j < k
    ensures 2 * Pow2(j) <= Pow2(k)
  {
    if j + 1 == k {
    } else {
      Pow2Monotone(j, k - 1);
    }
  }

  lemma {:induction false} Pow2Add(j: nat, k: nat)
    ensures Pow2(j + k) == Pow2(j) * Pow2(k)
  {
    if j == 0 {
    } else {
      Pow2Add(j - 1, k);
      assert Pow2(j) * Pow2(k) == 2 * (Pow2(j - 1) * Pow2(k));
    }
  }

  lemma {:induction false} OrZero(a: nat)
    ensures Or(a, 0) == a
  {
    if a == 0 {
    } else {
      OrZero(a / 2);
    }
  }

  /** Fields that do not overlap are added. */
  lemma {:induction false} OrDisjoint(a: nat, b: nat, k: nat)
    requires b < Pow2(k)
    ensures Or(a * Pow2(k), b) == a * Pow2(k) + b
    decreases k
  {
    if k == 0 {
      OrZero(a);
    } else {
      assert a * Pow2(k) == 2 * (a * Pow2(k - 1));
      OrDisjoint(a, b / 2, k - 1);
    }
  }

  lemma {:induction false} OrBound(a: nat, b: nat, k: nat)
    requires a < Pow2(k) && b < Pow2(k)
    ensures Or(a, b) < Pow2(k)
    decreases k
  {
    if k == 0 {
    } else {
      OrBound(a / 2, b / 2, k - 1);
    }
  }

  lemma {:induction false} OrBit(a: nat, b: nat, i: nat)
    ensures Bit(Or(a, b), i) <==> Bit(a, i) || Bit(b, i)
    decreases i
  {
    if a == 0 && b == 0 {
      assert Or(a, b) == 0;
      OrBitZero(i);
    } else {
      var low := if a % 2 == 1 || b % 2 == 1 then 1 else 0;
      assert Or(a, b) == low + 2 * Or(a / 2, b / 2);
      if i > 0 {
        OrBit(a / 2, b / 2, i - 1);
      }
    }
  }

  lemma {:induction false} OrBitZero(i: nat)
    ensures !Bit(0, i)
  {
    if i == 0 {
    } else {
      OrBitZero(i - 1);
    }
  }

  lemma HalfThenDivide(x: nat, p: nat)
    requires p > 0
    ensures x / (2 * p) == x / 2 / p
  {
    var h := x / 2;
    var q, r := h / p, h % p;
    assert h == p * q + r;
    Distributes(2 * p, q, 0);
    assert x == 2 * h + x % 2;
    assert 2 * (p * q) == (2 * p) * q;
    Unique(2 * p, x / (2 * p), x % (2 * p), q, 2 * r + x % 2);
  }

  lemma {:induction false} ShiftBit(x: nat, k: nat, i: nat)
    ensures Bit(ShiftRight(x, k), i) <==> Bit(x, i + k)
    decreases k
  {
    if k == 0 {
    } else {
      HalfThenDivide(x, Pow2(k - 1));
      ShiftBit(x / 2, k - 1, i);
    }
  }

  lemma {:induction false} TopBit(x: nat, k: nat)
    requires k > 0 && Pow2(k - 1) <= x < Pow2(k)
    ensures Bit(x, k - 1)
    decreases k
  {
    if k == 1 {
    } else {
      TopBit(x / 2, k - 1);
    }
  }

  lemma {:induction false} AllOnes(x: nat, k: nat)
    requires x < Pow2(k) && forall i: nat :: i < k ==> Bit(x, i)
    ensures x == Pow2(k) - 1
    decreases k
  {
    if k == 0 {
    } else {
      forall i: nat | i < k - 1 ensures Bit(x / 2, i) {
        assert Bit(x, i + 1);
      }
      assert Bit(x, 0);
      AllOnes(x / 2, k - 1);
    }
  }

  /** Every positive number lies between two neighbouring powers of two. */
  lemma {:induction false} BitLength(x: nat, bound: nat) returns (k: nat)
    requires 0 < x < Pow2(bound)
    ensures 0 < k <= bound && Pow2(k - 1) <= x < Pow2(k)
    decreases bound
  {
    if x < Pow2(bound - 1) {
      k := BitLength(x, bound - 1);
    } else {
      k := bound;
    }
  }

  // ---------------------------------------------------------------- word sizes

  const TWO_32: nat := 0x1_0000_0000
  const TWO_64: nat := 0x1_0000_0000_0000_0000
  const TWO_96: nat := 0x1_0000_0000_0000_0000_0000_0000
  const TWO_128: nat := 0x1_0000_0000_0000_0000_0000_0000_0000_0000

  lemma PowSum(j: nat, k: nat, p: nat, q: nat)
    requires Pow2(j) == p && Pow2(k) == q
    ensures Pow2(j + k) == p * q
  {
    Pow2Add(j, k);
  }

  lemma WordSizes()
    ensures Pow2(32) == TWO_32 && Pow2(64) == TWO_64 && Pow2(96) == TWO_96 && Pow2(128) == TWO_128
  {
    assert Pow2(2) == 4;
    PowSum(2, 2, 4, 4);
    PowSum(4, 4, 16, 16);
    PowSum(8, 8, 0x100, 0x100);
    PowSum(16, 16, 0x1_0000, 0x1_0000);
    PowSum(32, 32, TWO_32, TWO_32);
    PowSum(64, 32, TWO_64, TWO_32);
    PowSum(64, 64, TWO_64, TWO_64);
  }
}
