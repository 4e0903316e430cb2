/** The bits of a number, as the SET_BIT and CHECK_BIT macros see them. */
module Bits {

  /** Bit `j` of a number. */
  predicate Bit(mask: nat, j: nat) {
    if j == 0 then mask % 2 == 1 else Bit(mask / 2, j - 1)
  }

  function SetBit(mask: nat, j: nat): nat {
    if j == 0 then (if mask % 2 == 1 then mask else mask + 1) else 2 * SetBit(mask / 2, j - 1) + mask % 2
  }

  function Pow2(n: nat): (p: nat)
    ensures p > 0
  {
    if n == 0 then 1 else 2 * Pow2(n - 1)
  }

  lemma {:induction false} SetBitBound(mask: nat, j: nat, n: nat)
    requires mask < Pow2(n) && j < n
    ensures SetBit(mask, j) < Pow2(n)
  {
    var half := Pow2(n - 1);
    assert Pow2(n) == 2 * half;
    if j > 0 {
      SetBitBound(mask / 2, j - 1, n - 1);
      HalfBound(mask, SetBit(mask / 2, j - 1), half);
    } else {
      assert mask % 2 == 0 ==> mask + 1 < 2 * half;
    }
  }

  lemma HalfBound(mask: nat, x: nat, half: nat)
    requires x < half
    ensures 2 * x + mask % 2 < 2 * half
  {
  }

  lemma {:induction false} SetBitIs(mask: nat, j: nat, k: nat)
    ensures Bit(SetBit(mask, j), k) <==> Bit(mask, k) || k == j
  {
    if j > 0 && k > 0 {
      assert SetBit(mask, j) / 2 == SetBit(mask / 2, j - 1);
      SetBitIs(mask / 2, j - 1, k - 1);
    } else if j == 0 && k > 0 {
      assert SetBit(mask, 0) / 2 == mask / 2;
    }
  }

  lemma {:induction false} ZeroHasNoBits(k: nat)
    ensures !Bit(0, k)
  {
    if k > 0 {
      ZeroHasNoBits(k - 1);
    }
  }

  lemma SetBit16(mask: nat, j: nat)
    requires mask < 65536 && j < 16
    ensures SetBit(mask, j) < 65536
  {
    assert Pow2(4) == 16;
    assert Pow2(8) == 256;
    assert Pow2(12) == 4096;
    assert Pow2(16) == 65536;
    SetBitBound(mask, j, 16);
  }
}
