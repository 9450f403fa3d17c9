/** Binary64 values as their 64 bits, with the integer meaning of section 3.4 of
    IEEE 754-2019: the value scaled by 2^1074, which is an integer for every finite double. */
module F64 {

  const SIGN: nat := 0x8000_0000_0000_0000
  const TWO_52: nat := 0x10_0000_0000_0000

  /** A `u64`, read as the bits of an `f64`. */
  type Bits = b: nat | b < 0x1_0000_0000_0000_0000

  const POSITIVE_ZERO: Bits := 0
  const NEGATIVE_ZERO: Bits := SIGN

  /** The biased exponent field, bits 52 to 62. */
  function Exponent(b: Bits): nat { (b % SIGN) / TWO_52 }

  /** The trailing significand field, bits 0 to 51. */
  function Fraction(b: Bits): nat { (b % SIGN) % TWO_52 }

  predicate IsNaN(b: Bits) { Exponent(b) == 2047 && Fraction(b) != 0 }

  function Pow2(n: nat): (p: nat)
    ensures p >= 1
  {
    if n == 0 then 1 else 2 * Pow2(n - 1)
  }

  /** |value| * 2^1074; an infinity gets the magnitude one step past the largest finite double. */
  function Magnitude(b: Bits): nat {
    if Exponent(b) == 0 then Fraction(b) else (TWO_52 + Fraction(b)) * Pow2(Exponent(b) - 1)
  }

  /** value * 2^1074, signed. */
  function Scaled(b: Bits): int {
    var m: int := Magnitude(b);
    if b < SIGN then m else -m
  }

  /** The `<=` of the language: false as soon as one side is a NaN. */
  predicate Le(a: Bits, b: Bits) { !IsNaN(a) && !IsNaN(b) && Scaled(a) <= Scaled(b) }

  lemma {:induction false} Pow2Monotone(m: nat, n: nat)
    requires m <= n
    ensures Pow2(m) <= Pow2(n)
    decreases n - m
  {
    if m < n { Pow2Monotone(m + 1, n); }
  }

  /** The bits below the sign order magnitudes: a larger bit pattern is a larger magnitude. */
  lemma {:induction false} MagnitudeMonotone(a: Bits, b: Bits)
    requires a % SIGN < b % SIGN
    ensures Magnitude(a) < Magnitude(b)
  {
    var ea, eb, fa, fb := Exponent(a), Exponent(b), Fraction(a), Fraction(b);
    assert a % SIGN == ea * TWO_52 + fa && b % SIGN == eb * TWO_52 + fb;
    assert ea < eb || (ea == eb && fa < fb);
    if ea == eb {
      if ea > 0 { ScaleStrict(TWO_52 + fa, TWO_52 + fb, Pow2(ea - 1)); }
    } else if ea == 0 {
      ScaleMonotone(TWO_52, TWO_52 + fb, 1, Pow2(eb - 1));
    } else {
      ScaleStrict(TWO_52 + fa, 2 * TWO_52, Pow2(ea - 1));
      assert Pow2(ea) == 2 * Pow2(ea - 1);
      assert 2 * TWO_52 * Pow2(ea - 1) == TWO_52 * Pow2(ea);
      Pow2Monotone(ea, eb - 1);
      ScaleMonotone(TWO_52, TWO_52 + fb, Pow2(ea), Pow2(eb - 1));
    }
  }

  lemma ScaleStrict(x: nat, y: nat, k: nat)
    requires x < y && k >= 1
    ensures x * k < y * k
  {}

  lemma ScaleMonotone(x: nat, y: nat, k: nat, l: nat)
    requires x <= y && k <= l
    ensures x * k <= y * l
  {
    assert x * k <= x * l;
    assert x * l <= y * l;
  }

  /** Only the two zeros share a meaning. */
  lemma ZeroMagnitude(b: Bits)
    ensures Magnitude(b) == 0 <==> b % SIGN == 0
  {
    if b % SIGN != 0 { MagnitudeMonotone(0, b); }
  }
}
