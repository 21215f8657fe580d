// Unsigned machine arithmetic, bit by bit: the C operators that the wire
// runtime applies to uint32_t and uint64_t values.
module Bits {

  const TWO_32: nat := 0x1_0000_0000
  const TWO_64: nat := 0x1_0000_0000_0000_0000

  function Pow2(n: nat): (p: nat)
    ensures p > 0
  {
    if n == 0 then 1 else 2 * Pow2(n - 1)
  }

  /** C's `a | b` on unsigned operands. */
  function Or(a: nat, b: nat): nat
    decreases a + b
  {
    if a == 0 && b == 0 then 0
    else (if a % 2 == 1 || b % 2 == 1 then 1 else 0) + 2 * Or(a / 2, b / 2)
  }

  /** C's `a ^ b` on unsigned operands. */
  function Xor(a: nat, b: nat): nat
    decreases a + b
  {
    if a == 0 && b == 0 then 0
    else (a + b) % 2 + 2 * Xor(a / 2, b / 2)
  }

  /** The zero bits above the highest set bit of a `width`-bit value. */
  function LeadingZeros(v: nat, width: nat): (n: nat)
    ensures n <= width
  {
    if width == 0 || v >= Pow2(width - 1) then 0 else 1 + LeadingZeros(v, width - 1)
  }

  lemma {:induction false} Pow2Add(a: nat, b: nat)
    ensures Pow2(a + b) == Pow2(a) * Pow2(b)
  {
    if a != 0 {
      Pow2Add(a - 1, b);
    }
  }

  lemma {:induction false} Pow2Step(a: nat, p: nat, b: nat, q: nat)
    requires Pow2(a) == p && Pow2(b) == q
    ensures Pow2(a + b) == p * q
  {
    Pow2Add(a, b);
  }

  lemma {:induction false} Pow2Values()
    ensures Pow2(31) == 0x8000_0000 && Pow2(32) == TWO_32
    ensures Pow2(49) == 0x2_0000_0000_0000 && Pow2(56) == 0x100_0000_0000_0000
    ensures Pow2(63) == 0x8000_0000_0000_0000 && Pow2(64) == TWO_64
  {
    var p7 := 0x80;
    Pow2Step(7, p7, 7, p7);
    Pow2Step(14, 0x4000, 14, 0x4000);
    Pow2Step(28, 0x1000_0000, 3, 8);
    Pow2Step(31, 0x8000_0000, 1, 2);
    Pow2Step(28, 0x1000_0000, 21, 0x20_0000);
    Pow2Step(49, 0x2_0000_0000_0000, 7, p7);
    Pow2Step(56, 0x100_0000_0000_0000, 7, p7);
    Pow2Step(63, 0x8000_0000_0000_0000, 1, 2);
  }

  lemma {:induction false} Pow2Monotone(a: nat, b: nat)
    requires a <= b
    ensures Pow2(a) <= Pow2(b)
    decreases b
  {
    if a < b {
      Pow2Monotone(a, b - 1);
    }
  }

  lemma {:induction false} OrZero(a: nat)
    ensures Or(a, 0) == a
  {
    if a != 0 {
      OrZero(a / 2);
    }
  }

  /** Operands with no set bit in common: `|` is `+`. */
  lemma {:induction false} OrDisjoint(a: nat, k: nat, b: nat)
    requires a < Pow2(k)
    ensures Or(a, b * Pow2(k)) == a + b * Pow2(k)
  {
    if k == 0 {
      assert a == 0;
      OrZero(b);
      OrCommutes(0, b);
    } else {
      var p := Pow2(k - 1);
      assert b * Pow2(k) == 2 * (b * p);
      assert (b * Pow2(k)) / 2 == b * p;
      assert (b * Pow2(k)) % 2 == 0;
      OrDisjoint(a / 2, k - 1, b);
    }
  }

  lemma {:induction false} OrCommutes(a: nat, b: nat)
    ensures Or(a, b) == Or(b, a)
    decreases a + b
  {
    if a != 0 || b != 0 {
      OrCommutes(a / 2, b / 2);
    }
  }

  lemma {:induction false} XorZero(a: nat)
    ensures Xor(a, 0) == a
  {
    if a != 0 {
      XorZero(a / 2);
    }
  }

  /** `^` with an all-ones mask is the bitwise complement. */
  lemma {:induction false} XorOnes(a: nat, n: nat)
    requires a < Pow2(n)
    ensures Xor(a, Pow2(n) - 1) == Pow2(n) - 1 - a
  {
    if n > 0 {
      var m := Pow2(n - 1);
      assert (Pow2(n) - 1) / 2 == m - 1;
      XorOnes(a / 2, n - 1);
      assert (a + Pow2(n) - 1) % 2 == 1 - a % 2;
    }
  }

  /** Below 2^k exactly when at least width - k leading bits are zero. */
  lemma {:induction false} LeadingZerosBound(v: nat, width: nat, k: nat)
    requires v < Pow2(width) && k <= width
    ensures v < Pow2(k) <==> width - LeadingZeros(v, width) <= k
  {
    if width > 0 {
      if v >= Pow2(width - 1) {
        if k < width {
          Pow2Monotone(k, width - 1);
        }
      } else if k < width {
        LeadingZerosBound(v, width - 1, k);
      }
    }
  }

  lemma {:induction false} MultipleBound(k: int, m: int)
    requires m > 0
    ensures k >= 1 ==> k * m >= m
    ensures k <= -1 ==> k * m <= -m
  {
  }

  lemma {:induction false} ModOf(x: int, d: int, m: int, r: int)
    requires m > 0 && 0 <= r < m && x == d * m + r
    ensures x % m == r
  {
    var e := x / m;
    assert x == e * m + x % m;
    assert (d - e) * m == x % m - r;
    MultipleBound(d - e, m);
  }

  /** A shifted digit, truncated to the word, still lands above the low bits. */
  lemma {:induction false} ShiftMod(acc: nat, g: nat, p: nat, q: nat)
    requires acc < p && q > 0
    ensures (acc + g * p) % (p * q) == acc + (g % q) * p
  {
    var d, r := g / q, g % q;
    assert g * p == d * (p * q) + r * p by {
      assert g == d * q + r;
      assert (d * q + r) * p == (d * q) * p + r * p;
      assert (d * q) * p == d * (q * p);
      assert q * p == p * q;
    }
    assert r * p <= p * q - p by {
      MultipleBound(q - r, p);
      assert (q - r) * p == p * q - r * p;
    }
    assert p * q > 0;
    ModOf(acc + g * p, d, p * q, acc + r * p);
  }

  /** `acc |= digit << shift` on a word whose bits from `shift` up are clear. */
  lemma {:induction false} OrShifted(acc: nat, g: nat, shift: nat, width: nat)
    requires shift <= width && acc < Pow2(shift)
    ensures Or(acc, (g * Pow2(shift)) % Pow2(width)) == (acc + g * Pow2(shift)) % Pow2(width)
  {
    var p, q := Pow2(shift), Pow2(width - shift);
    assert Pow2(width) == p * q by {
      Pow2Add(shift, width - shift);
    }
    ShiftMod(0, g, p, q);
    ShiftMod(acc, g, p, q);
    OrDisjoint(acc, shift, g % q);
  }

  /** The signed value whose unsigned image, modulo `m`, is `u`. */
  function ToSigned(u: nat, m: nat): int {
    if 2 * u < m then u else u - m
  }

  /** The unsigned image of a signed value of a word with `m` values. */
  function ToUnsigned(v: int, m: nat): (u: nat)
    requires -(m as int) <= 2 * v < m
    ensures u < m && ToSigned(u, m) == v
  {
    if v < 0 then v + m else v
  }

  lemma {:induction false} SmallMod(x: int, m: int)
    requires 0 <= x < m
    ensures x % m == x
  {
  }
}
