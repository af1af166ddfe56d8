/** Bitwise AND on unsigned machine words, and what it does with the masks of powers of two. */
module Bits {

  function Pow2(k: nat): (p: nat)
    ensures p >= 1
  {
    if k == 0 then 1 else 2 * Pow2(k - 1)
  }

  lemma {:induction false} Pow2Grows(j: nat, k: nat)
    requires j <= k
    ensures Pow2(j) <= Pow2(k)
  {
    if j < k {
      Pow2Grows(j, k - 1);
    }
  }

  const SIZE_MAX: nat := 0xFFFF_FFFF_FFFF_FFFF

  lemma {:induction false} Pow2Sum(j: nat, k: nat)
    ensures Pow2(j + k) == Pow2(j) * Pow2(k)
  {
    if j > 0 {
      Pow2Sum(j - 1, k);
      assert 2 * (Pow2(j - 1) * Pow2(k)) == 2 * Pow2(j - 1) * Pow2(k);
    }
  }

  lemma Squared(k: nat, p: nat)
    requires Pow2(k) == p
    ensures Pow2(2 * k) == p * p
  {
    Pow2Sum(k, k);
  }

  lemma WordSize()
    ensures Pow2(64) == SIZE_MAX + 1
  {
    assert Pow2(4) == 16;
    Squared(4, 16);
    Squared(8, 256);
    Squared(16, 0x1_0000);
    Squared(32, 0x1_0000_0000);
  }

  /** Bit by bit: the lowest bit of both, then the rest. */
  function And(a: nat, b: nat): (r: nat)
    ensures r <= a && r <= b
  {
    if a == 0 || b == 0 then 0
    else (if a % 2 == 1 && b % 2 == 1 then 1 else 0) + 2 * And(a / 2, b / 2)
  }

  function Or(a: nat, b: nat): nat
    decreases a + b
  {
    if a == 0 then b else if b == 0 then a
    else (if a % 2 == 1 || b % 2 == 1 then 1 else 0) + 2 * Or(a / 2, b / 2)
  }

  /** `x << k` without a bound on the width. */
  function Shifted(x: nat, k: nat): nat { if k == 0 then x else 2 * Shifted(x, k - 1) }

  lemma {:induction false} ShiftedIsProduct(x: nat, k: nat)
    ensures Shifted(x, k) == x * Pow2(k)
  {
    if k > 0 {
      ShiftedIsProduct(x, k - 1);
      assert 2 * (x * Pow2(k - 1)) == x * (2 * Pow2(k - 1));
    }
  }

  /** Or-ing a number below 2^k to one shifted by k adds it. */
  lemma {:induction false} OrBelowShift(x: nat, k: nat, y: nat)
    requires y < Pow2(k)
    ensures Or(Shifted(x, k), y) == Shifted(x, k) + y
  {
    if k > 0 {
      OrBelowShift(x, k - 1, y / 2);
    }
  }

  /** The number made of the lowest k bits of x. */
  function LowBits(x: nat, k: nat): (r: nat)
    ensures r <= x && r < Pow2(k)
  {
    if k == 0 then 0 else x % 2 + 2 * LowBits(x / 2, k - 1)
  }

  /** -(2^k) as an unsigned number of n bits. */
  function Negated(k: nat, n: nat): (r: nat)
    requires k <= n
    ensures r == Pow2(n) - Pow2(k)
  {
    if k == 0 then Pow2(n) - 1 else 2 * Negated(k - 1, n - 1)
  }

  lemma Remainder(x: nat, d: nat, q: nat, r: nat)
    requires x == d * q + r && r < d
    ensures x % d == r
  {
    var e := x / d - q;
    assert x == d * (x / d) + x % d;
    assert d * (x / d) == d * q + d * e;
    assert 0 - d < d * e < d;
    assert e == 0;
  }

  /** What is left above the lowest k bits is a multiple of 2^k. */
  lemma {:induction false} HighPart(x: nat, k: nat) returns (q: nat)
    ensures x == Pow2(k) * q + LowBits(x, k)
  {
    if k == 0 {
      q := x;
    } else {
      q := HighPart(x / 2, k - 1);
      assert Pow2(k) * q == 2 * (Pow2(k - 1) * q);
    }
  }

  /** The lowest k bits are the remainder modulo 2^k. */
  lemma LowBitsIsRemainder(x: nat, k: nat)
    ensures LowBits(x, k) == x % Pow2(k)
  {
    var q := HighPart(x, k);
    Remainder(x, Pow2(k), q, LowBits(x, k));
  }

  lemma {:induction false} LowBitsOfLowBits(x: nat, j: nat, k: nat)
    requires j <= k
    ensures LowBits(LowBits(x, k), j) == LowBits(x, j)
  {
    if j > 0 {
      var y := LowBits(x, k);
      assert y % 2 == x % 2 && y / 2 == LowBits(x / 2, k - 1);
      LowBitsOfLowBits(x / 2, j - 1, k - 1);
    }
  }

  /** `x & (2^k - 1)` keeps the lowest k bits. */
  lemma {:induction false} AndLowMask(x: nat, k: nat)
    ensures And(x, Pow2(k) - 1) == LowBits(x, k)
  {
    if k > 0 {
      var m := Pow2(k - 1);
      AndLowMask(x / 2, k - 1);
      assert (2 * m - 1) / 2 == m - 1 && (2 * m - 1) % 2 == 1;
    }
  }

  lemma {:induction false} LowBitsOfSmall(x: nat, k: nat)
    requires x < Pow2(k)
    ensures LowBits(x, k) == x
  {
    if k > 0 {
      LowBitsOfSmall(x / 2, k - 1);
    }
  }

  /** `x & -(2^k)` in n bits clears the lowest k bits. */
  lemma {:induction false} AndHighMask(x: nat, k: nat, n: nat)
    requires k <= n && x < Pow2(n)
    ensures And(x, Negated(k, n)) == x - LowBits(x, k)
  {
    if k == 0 {
      AndLowMask(x, n);
      LowBitsOfSmall(x, n);
    } else {
      AndHighMask(x / 2, k - 1, n - 1);
      assert Negated(k, n) / 2 == Negated(k - 1, n - 1);
      if Negated(k, n) == 0 {
        LowBitsOfSmall(x, k);
      }
    }
  }

  /** `align` on a pointer: `(value - 1 + alignment) & -alignment` in words of n bits, for alignment 2^k. */
  function Align(value: nat, k: nat, n: nat): nat
    requires k <= n
  {
    And(LowBits(value + Pow2(k) - 1, n), Negated(k, n))
  }

  lemma AlignClearsLowBits(value: nat, k: nat, n: nat)
    requires k <= n && value + Pow2(k) - 1 < Pow2(n)
    ensures Align(value, k, n) == value + Pow2(k) - 1 - LowBits(value + Pow2(k) - 1, k)
  {
    LowBitsOfSmall(value + Pow2(k) - 1, n);
    AndHighMask(value + Pow2(k) - 1, k, n);
  }

  /** Below the end of the address space, `align` gives the least multiple of 2^k not below the value. */
  lemma AlignRoundsUp(value: nat, k: nat, n: nat) returns (q: nat)
    requires k <= n && value + Pow2(k) - 1 < Pow2(n)
    ensures Align(value, k, n) == Pow2(k) * q
    ensures value <= Align(value, k, n) < value + Pow2(k)
  {
    AlignClearsLowBits(value, k, n);
    q := HighPart(value + Pow2(k) - 1, k);
  }
}
