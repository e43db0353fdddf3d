/** Bitwise arithmetic on 64-bit sizes, as functions on naturals, and the mask that rounds a
    size up to a power of two. */
module Bits {
  import opened Prelude

  const SIZE_MODULUS: nat := 0x1_0000_0000_0000_0000

  function Pow2(k: nat): (p: nat)
    ensures p >= 1
  {
    if k == 0 then 1 else 2 * Pow2(k - 1)
  }

  /** a & b */
  function And(a: nat, b: nat): nat {
    if a == 0 || b == 0 then 0 else 2 * And(a / 2, b / 2) + (a % 2) * (b % 2)
  }

  /** ~a in 64 bits */
  function Not(a: nat): nat
    requires a < SIZE_MODULUS
  {
    SIZE_MODULUS - 1 - a
  }

  ghost predicate IsPowerOfTwo(a: nat) {
    exists k :: 0 <= k < 64 && a == Pow2(k)
  }

  /** (value + alignment - 1) & ~(alignment - 1) */
  function AlignUp(value: nat, alignment: nat): nat
    requires 1 <= alignment < SIZE_MODULUS
  {
    And((value + alignment - 1) % SIZE_MODULUS, Not(alignment - 1))
  }

  lemma {:induction false} AndOnes(v: nat, w: nat)
    requires v < Pow2(w)
    ensures And(v, Pow2(w) - 1) == v
  {
    if w > 0 && v > 0 {
      AndOnes(v / 2, w - 1);
      assert (Pow2(w) - 1) / 2 == Pow2(w - 1) - 1 && (Pow2(w) - 1) % 2 == 1;
    }
  }

  lemma HalfRemainder(v: nat, m: nat)
    requires m >= 1
    ensures v % (2 * m) == 2 * ((v / 2) % m) + v % 2
  {
    var h, b := v / 2, v % 2;
    var q, r := h / m, h % m;
    assert v == (2 * m) * q + (2 * r + b);
    RemainderIs(v, 2 * m, q, 2 * r + b);
  }

  lemma RemainderIs(v: nat, m: nat, q: nat, r: nat)
    requires r < m && v == m * q + r
    ensures v % m == r
  {
    var d := v / m;
    assert v == m * d + v % m;
    if d < q { MulStep(m, d, q); }
    if d > q { MulStep(m, q, d); }
  }

  /** w ones above k zeros. */
  function Mask(k: nat, w: nat): nat { Pow2(k) * (Pow2(w) - 1) }

  lemma MaskStep(k: nat, w: nat)
    requires k > 0
    ensures Mask(k, w) == 2 * Mask(k - 1, w) && Pow2(k) == 2 * Pow2(k - 1) && Pow2(k + w) == 2 * Pow2(k - 1 + w)
  {
    Double(Pow2(k - 1), Pow2(w) - 1);
  }

  /** A mask of w ones above k zeros clears the low k bits. */
  lemma {:induction false} AndClearsLowBits(v: nat, k: nat, w: nat)
    requires v < Pow2(k + w)
    ensures And(v, Mask(k, w)) == v - v % Pow2(k)
  {
    if k == 0 {
      AndOnes(v, w);
      assert Mask(0, w) == Pow2(w) - 1;
    } else {
      hide Pow2, And, Mask;
      MaskStep(k, w);
      AndClearsLowBits(v / 2, k - 1, w);
      HalfRemainder(v, Pow2(k - 1));
      AndDoubled(v, Mask(k - 1, w));
    }
  }

  lemma Double(a: nat, b: nat)
    ensures (2 * a) * b == 2 * (a * b)
  {
  }

  lemma AndDoubled(v: nat, mask: nat)
    ensures And(v, 2 * mask) == 2 * And(v / 2, mask)
  {
    assert (2 * mask) / 2 == mask && (2 * mask) % 2 == 0;
    if v == 0 || mask == 0 { } else { assert And(v, 2 * mask) == 2 * And(v / 2, mask) + (v % 2) * 0; }
  }

  lemma {:induction false} Pow2Sum(a: nat, b: nat)
    ensures Pow2(a + b) == Pow2(a) * Pow2(b)
  {
    if a > 0 {
      Pow2Sum(a - 1, b);
      Double(Pow2(a - 1), Pow2(b));
    }
  }

  lemma Pow2Square(k: nat, v: nat, square: nat)
    requires Pow2(k) == v && v * v == square
    ensures Pow2(2 * k) == square
  {
    Pow2Sum(k, k);
  }

  lemma Pow2Of64()
    ensures Pow2(64) == SIZE_MODULUS
  {
    assert Pow2(2) == 4;
    hide Pow2;
    Pow2Square(2, 4, 16);
    Pow2Square(4, 16, 256);
    Pow2Square(8, 256, 0x1_0000);
    Pow2Square(16, 0x1_0000, 0x1_0000_0000);
    Pow2Square(32, 0x1_0000_0000, SIZE_MODULUS);
  }

  lemma SmallRemainder(v: nat, m: nat)
    requires v < m
    ensures v % m == v
  {
  }

  lemma AlignUpUnfolds(value: nat, alignment: nat)
    requires 1 <= alignment < SIZE_MODULUS && value + alignment <= SIZE_MODULUS
    ensures AlignUp(value, alignment) == And(value + alignment - 1, Not(alignment - 1))
  {
    SmallRemainder(value + alignment - 1, SIZE_MODULUS);
  }

  lemma PowerSplits(k: nat)
    requires k < 64
    ensures Pow2(k) * Pow2(64 - k) == SIZE_MODULUS && Pow2(64 - k) >= 2 && 2 * Pow2(k) <= SIZE_MODULUS
  {
    assert Pow2(64 - k) == 2 * Pow2(63 - k);
    hide Pow2;
    Pow2Of64();
    Pow2Sum(k, 64 - k);
    MulStep(Pow2(k), 1, Pow2(64 - k));
  }

  /** Below the top of the range the mask subtracts the remainder. */
  lemma AlignUpIsTruncation(value: nat, alignment: nat)
    requires IsPowerOfTwo(alignment) && value + alignment <= SIZE_MODULUS
    ensures 1 <= alignment < SIZE_MODULUS
    ensures AlignUp(value, alignment) == (value + alignment - 1) - (value + alignment - 1) % alignment
  {
    var k :| 0 <= k < 64 && alignment == Pow2(k);
    hide AlignUp, And, Pow2, Not, Mask;
    PowerSplits(k);
    Pow2Of64();
    AlignUpUnfolds(value, alignment);
    MaskIsNot(k);
    var v := value + alignment - 1;
    AndClearsLowBits(v, k, 64 - k);
    assert And(v, Mask(k, 64 - k)) == v - v % Pow2(k);
  }

  lemma MaskIsNot(k: nat)
    requires k < 64
    ensures Pow2(k) <= SIZE_MODULUS && Not(Pow2(k) - 1) == Mask(k, 64 - k)
  {
    hide Pow2;
    PowerSplits(k);
    MaskIsProduct(Pow2(k), Pow2(64 - k), SIZE_MODULUS);
  }

  lemma MaskIsProduct(a: nat, w: nat, size: nat)
    requires a >= 1 && w >= 1 && size == a * w
    ensures a * (w - 1) == size - 1 - (a - 1)
  {
  }

  lemma RoundUp(v: nat, a: nat, other: nat)
    requires a >= 1
    ensures (v - v % a) % a == 0 && v - v % a <= v < v - v % a + a
    ensures other % a == 0 && other < v - v % a ==> other + a <= v - v % a
  {
    var q := v / a;
    assert v - v % a == a * q;
    RemainderIs(a * q, a, q, 0);
    if other % a == 0 && other < a * q {
      var p := other / a;
      assert other == a * p;
      if p < q { MulStep(a, p, q); }
      if p > q { MulStep(a, q, p); }
    }
  }

  /** The mask rounds up to the least multiple of the alignment at or above the value. */
  lemma AlignUpIsLeastMultiple(value: nat, alignment: nat, other: nat)
    requires IsPowerOfTwo(alignment) && value + alignment <= SIZE_MODULUS
    ensures 1 <= alignment < SIZE_MODULUS
    ensures AlignUp(value, alignment) % alignment == 0
    ensures value <= AlignUp(value, alignment) < value + alignment
    ensures other >= value && other % alignment == 0 ==> AlignUp(value, alignment) <= other
  {
    AlignUpIsTruncation(value, alignment);
    hide AlignUp, IsPowerOfTwo;
    RoundUp(value + alignment - 1, alignment, other);
  }
}
