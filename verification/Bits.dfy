/** The bits of a byte. */
module Bits {
  import opened Radix

  function Bit(i: nat): bv8
    requires i < 8
  {
    match i
    case 0 => 1
    case 1 => 2
    case 2 => 4
    case 3 => 8
    case 4 => 16
    case 5 => 32
    case 6 => 64
    case _ => 128
  }

  function HasBit(b: bv8, i: nat): bool
    requires i < 8
  {
    b & Bit(i) != 0
  }

  lemma SetBit(b: bv8, i: nat, p: nat)
    requires i < 8 && p < 8
    ensures HasBit(b | Bit(i), p) <==> i == p || HasBit(b, p)
  {
    BitIs(i, p);
    hide HasBit, Bit;
    SetBitOf(b, Bit(i), p);
  }

  lemma BitIs(i: nat, p: nat)
    requires i < 8 && p < 8
    ensures Bit(i) in [1 as bv8, 2, 4, 8, 16, 32, 64, 128] && (Bit(i) == Bit(p) <==> i == p)
  {
  }

  lemma SetBitOf(b: bv8, m: bv8, p: nat)
    requires p < 8 && m in [1 as bv8, 2, 4, 8, 16, 32, 64, 128]
    ensures HasBit(b | m, p) <==> m == Bit(p) || HasBit(b, p)
  {
  }

  lemma SameBits(a: bv8, b: bv8)
    requires forall p: nat :: p < 8 ==> (HasBit(a, p) <==> HasBit(b, p))
    ensures a == b
  {
    assert HasBit(a, 0) <==> HasBit(b, 0);
    assert HasBit(a, 1) <==> HasBit(b, 1);
    assert HasBit(a, 2) <==> HasBit(b, 2);
    assert HasBit(a, 3) <==> HasBit(b, 3);
    assert HasBit(a, 4) <==> HasBit(b, 4);
    assert HasBit(a, 5) <==> HasBit(b, 5);
    assert HasBit(a, 6) <==> HasBit(b, 6);
    assert HasBit(a, 7) <==> HasBit(b, 7);
  }

  lemma ZeroHasNoBit(p: nat)
    requires p < 8
    ensures !HasBit(0, p)
  {
  }

  lemma SomeBit(b: bv8)
    requires b != 0
    ensures exists i: nat :: i < 8 && HasBit(b, i)
  {
    if forall i: nat :: i < 8 ==> !HasBit(b, i) {
      forall p: nat | p < 8 ensures !HasBit(0, p) { ZeroHasNoBit(p); }
      SameBits(b, 0);
    }
  }

  // ----- the bits as weights

  function If(b: bool, n: nat): nat
  {
    if b then n else 0
  }

  /** A byte, as a number, is the sum of its bits' weights, the first bit being worth one. */
  lemma ByteIsSum(b: bv8)
    ensures (b as nat) == If(HasBit(b, 0), 1) + 2 * If(HasBit(b, 1), 1) + 4 * If(HasBit(b, 2), 1)
      + 8 * If(HasBit(b, 3), 1) + 16 * If(HasBit(b, 4), 1) + 32 * If(HasBit(b, 5), 1)
      + 64 * If(HasBit(b, 6), 1) + 128 * If(HasBit(b, 7), 1)
  {
  }

  /** The number that the bits from the `k`-th on make. */
  function From(b: bv8, k: nat): nat
    requires k <= 8
    decreases 8 - k
  {
    if k == 8 then 0 else If(HasBit(b, k), 1) + 2 * From(b, k + 1)
  }

  lemma FromStep(b: bv8, k: nat)
    requires k < 8
    ensures From(b, k) == If(HasBit(b, k), 1) + 2 * From(b, k + 1)
  {
  }

  lemma FromIs(b: bv8)
    ensures From(b, 0) == If(HasBit(b, 0), 1) + 2 * If(HasBit(b, 1), 1) + 4 * If(HasBit(b, 2), 1)
      + 8 * If(HasBit(b, 3), 1) + 16 * If(HasBit(b, 4), 1) + 32 * If(HasBit(b, 5), 1)
      + 64 * If(HasBit(b, 6), 1) + 128 * If(HasBit(b, 7), 1)
  {
    assert From(b, 8) == 0;
    hide *;
    HalfFrom(b, 0);
    HalfFrom(b, 4);
  }

  lemma HalfFrom(b: bv8, k: nat)
    requires k <= 4
    ensures From(b, k) == If(HasBit(b, k), 1) + 2 * If(HasBit(b, k + 1), 1) + 4 * If(HasBit(b, k + 2), 1)
      + 8 * If(HasBit(b, k + 3), 1) + 16 * From(b, k + 4)
  {
    hide *;
    FromStep(b, k);
    FromStep(b, k + 1);
    FromStep(b, k + 2);
    FromStep(b, k + 3);
  }

  lemma ByteIsFrom(b: bv8)
    ensures (b as nat) == From(b, 0)
  {
    hide *;
    ByteIsSum(b);
    FromIs(b);
  }

  lemma {:induction false} QuotientFrom(b: bv8, k: nat, i: nat)
    requires k + i < 8
    ensures Pow(2, i) > 0 && From(b, k) / Pow(2, i) % 2 == If(HasBit(b, k + i), 1)
    decreases i
  {
    hide HasBit, From;
    PowPositive(2, i);
    FromStep(b, k);
    if i > 0 {
      QuotientFrom(b, k + 1, i - 1);
      Halve(If(HasBit(b, k), 1), From(b, k + 1), Pow(2, i - 1));
    }
  }

  lemma Halve(d: nat, m: nat, p: nat)
    requires d < 2 && p > 0
    ensures (d + 2 * m) / (2 * p) == m / p
  {
    var q, r := m / p, m % p;
    assert m == q * p + r;
    assert d + 2 * m == q * (2 * p) + (2 * r + d);
    DivModOf(q, 2 * r + d, 2 * p);
  }

  /** Bit `i` of a byte is set exactly if dividing the byte by 2^i leaves an odd number. */
  lemma BitIsQuotient(b: bv8, i: nat)
    requires i < 8
    ensures Pow(2, i) > 0 && (HasBit(b, i) <==> (b as nat) / Pow(2, i) % 2 == 1)
  {
    hide HasBit, Pow, From;
    ByteIsFrom(b);
    QuotientFrom(b, 0, i);
  }

  lemma Weights(i: nat)
    requires i < 8
    ensures Pow(2, i) == [1, 2, 4, 8, 16, 32, 64, 128][i]
  {
    assert Pow(2, 0) == 1 && Pow(2, 1) == 2 && Pow(2, 2) == 4 && Pow(2, 3) == 8;
    assert Pow(2, 4) == 16 && Pow(2, 5) == 32 && Pow(2, 6) == 64 && Pow(2, 7) == 128;
  }
}
