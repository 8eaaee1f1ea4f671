/**
 * Natural-number arithmetic for the bit operations the decoder performs:
 * powers of two and the bitwise OR of JavaScript's `|` (on 32-bit words) and
 * of BigInt `|`.
 */
module Bits {

  /** A byte of a `Uint8Array`. */
  type byte = b: int | 0 <= b < 256

  /** 2^32, the modulus of JavaScript's 32-bit integer operators. */
  const Word: nat := 0x1_0000_0000

  function Pow2(k: nat): (r: nat)
    ensures r >= 1
  {
    if k == 0 then 1 else 2 * Pow2(k - 1)
  }

  lemma {:induction false} Pow2Add(a: nat, b: nat)
    ensures Pow2(a + b) == Pow2(a) * Pow2(b)
  {
    if a > 0 {
      Pow2Add(a - 1, b);
    }
  }

  lemma Pow2Monotone(a: nat, b: nat)
    requires a <= b
    ensures Pow2(a) <= Pow2(b)
  {
    Pow2Add(a, b - a);
  }

  /** Powers of two are ordered as their exponents. */
  lemma Pow2Below(a: nat, b: nat)
    requires Pow2(a) < Pow2(b)
    ensures a < b
  {
    if b <= a {
      Pow2Monotone(b, a);
    }
  }

  lemma Pow2Word()
    ensures Pow2(32) == Word
  {
    Pow2Add(16, 16);
    Pow2Add(8, 8);
    Pow2Add(4, 4);
    Pow2Add(2, 2);
  }

  /** `d << k` without truncation: d doubled k times. */
  function Shl(d: nat, k: nat): (r: nat)
    ensures d <= r
  {
    if k == 0 then d else 2 * Shl(d, k - 1)
  }

  /** A left shift by k multiplies by 2^k. */
  lemma {:induction false} ShlMul(d: nat, k: nat)
    ensures Shl(d, k) == d * Pow2(k)
  {
    if k > 0 {
      ShlMul(d, k - 1);
      Distribute(d, Pow2(k - 1));
    }
  }

  /** Bitwise OR of two non-negative integers. */
  function BitOr(a: nat, b: nat): (r: nat)
    ensures a <= r <= a + b && b <= r
    decreases a + b
  {
    if a == 0 then b
    else if b == 0 then a
    else 2 * BitOr(a / 2, b / 2) + (if a % 2 == 1 || b % 2 == 1 then 1 else 0)
  }

  /** OR never sets a bit at or above position k that neither operand has. */
  lemma {:induction false} BitOrBound(a: nat, b: nat, k: nat)
    requires a < Pow2(k) && b < Pow2(k)
    ensures BitOr(a, b) < Pow2(k)
  {
    if a != 0 && b != 0 {
      BitOrBound(a / 2, b / 2, k - 1);
    }
  }

  /** When the bits of `a` lie below position k, OR-ing in m * 2^k is addition. */
  lemma {:induction false} BitOrDisjoint(a: nat, m: nat, k: nat)
    requires a < Pow2(k)
    ensures BitOr(a, m * Pow2(k)) == a + m * Pow2(k)
  {
    if a != 0 && m != 0 {
      var h := Pow2(k - 1);
      assert m * Pow2(k) == 2 * (m * h);
      assert (m * Pow2(k)) / 2 == m * h && (m * Pow2(k)) % 2 == 0;
      BitOrDisjoint(a / 2, m, k - 1);
    }
  }

  /** Placing a 7-bit group at position `shift` above a value below 2^shift. */
  lemma OrGroup(acc: nat, d: nat, shift: nat)
    requires acc < Pow2(shift) && d < 128
    ensures BitOr(acc, Shl(d, shift)) == acc + Shl(d, shift)
    ensures acc + Shl(d, shift) < Pow2(shift + 7)
  {
    ShlMul(d, shift);
    BitOrDisjoint(acc, d, shift);
    assert Pow2(shift + 7) == 128 * Pow2(shift) by { Pow2Add(shift, 7); Pow2Seven(); }
    assert d * Pow2(shift) <= 127 * Pow2(shift) by { MulMonotone(d, 127, Pow2(shift)); }
  }

  lemma Pow2Seven()
    ensures Pow2(7) == 128
  {
  }

  lemma Distribute(d: int, p: int)
    ensures d * (2 * p) == 2 * (d * p)
  {
  }

  lemma MulMonotone(a: nat, b: nat, c: nat)
    requires a <= b
    ensures a * c <= b * c
  {
  }
}
