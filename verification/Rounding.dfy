/** Converting integers to doubles keeps their order, though it may make different ones equal. */
module Rounding {
  import opened F64
  import opened Filter
  import opened Json

  lemma {:induction false} ExcessBounds(n: nat)
    ensures n < 2 * TWO_52 * Pow2(Excess(n))
    ensures Excess(n) > 0 ==> n >= TWO_52 * Pow2(Excess(n))
  {
    if n < 2 * TWO_52 {
      assert Excess(n) == 0 && Pow2(0) == 1;
    } else {
      var e := Excess(n / 2);
      ExcessBounds(n / 2);
      assert Excess(n) == e + 1 && Pow2(e + 1) == 2 * Pow2(e);
      if e == 0 { assert Pow2(0) == 1; }
    }
  }

  lemma {:induction false} ExcessMonotone(m: nat, n: nat)
    requires m <= n
    ensures Excess(m) <= Excess(n)
    decreases n
  {
    if m >= 2 * TWO_52 { ExcessMonotone(m / 2, n / 2); }
  }

  function Nearest(q: nat, r: nat, unit: nat): nat {
    if 2 * r > unit || (2 * r == unit && q % 2 == 1) then q + 1 else q
  }

  /** Rounding to a multiple of `unit`. */
  function RoundTo(n: nat, unit: nat): nat
    requires unit > 0
  {
    Nearest(n / unit, n % unit, unit) * unit
  }

  lemma Step(q: nat, p: nat, unit: nat)
    requires q < p
    ensures (q + 1) * unit <= p * unit
  {
    assert (p - q - 1) * unit >= 0;
  }

  lemma DivOrder(m: nat, n: nat, unit: nat)
    requires unit > 0 && m <= n
    ensures m == m / unit * unit + m % unit && m / unit <= n / unit
  {
    if m / unit > n / unit { Step(n / unit, m / unit, unit); }
  }

  lemma RoundToMonotone(m: nat, n: nat, unit: nat)
    requires unit > 0 && m <= n
    ensures RoundTo(m, unit) <= RoundTo(n, unit)
  {
    DivOrder(m, n, unit);
    DivOrder(n, n, unit);
    NearestMonotone(m / unit, m % unit, n / unit, n % unit, unit);
    AtLeast(Nearest(m / unit, m % unit, unit), Nearest(n / unit, n % unit, unit), unit);
  }

  lemma NearestMonotone(p: nat, r: nat, q: nat, s: nat, unit: nat)
    requires p < q || (p == q && r <= s)
    ensures Nearest(p, r, unit) <= Nearest(q, s, unit)
  {}

  lemma QuotientBounds(n: nat, unit: nat, low: nat, high: nat)
    requires unit > 0 && low * unit <= n < high * unit
    ensures low <= n / unit < high
  {
    DivOrder(n, n, unit);
    if n / unit < low { Step(n / unit, low, unit); }
    if n / unit >= high { AtLeast(high, n / unit, unit); }
  }

  lemma AtLeast(p: nat, q: nat, unit: nat)
    requires p <= q
    ensures p * unit <= q * unit
  {
    assert (q - p) * unit >= 0;
  }

  lemma RoundToBounds(n: nat, unit: nat, low: nat, high: nat)
    requires unit > 0 && low * unit <= n < high * unit
    ensures low * unit <= RoundTo(n, unit) <= high * unit
  {
    var q := n / unit;
    QuotientBounds(n, unit, low, high);
    AtLeast(low, q, unit);
    AtLeast(q + 1, high, unit);
    assert RoundTo(n, unit) == q * unit || RoundTo(n, unit) == (q + 1) * unit;
    AtLeast(q, q + 1, unit);
    hide RoundTo;
  }

  lemma RoundMonotone(m: nat, n: nat)
    requires m <= n
    ensures RoundNat(m) <= RoundNat(n)
  {
    var d, e := Excess(m), Excess(n);
    var u, v := Pow2(d), Pow2(e);
    assert RoundNat(m) == RoundTo(m, u) && RoundNat(n) == RoundTo(n, v);
    ExcessMonotone(m, n);
    hide RoundTo, RoundNat, Excess;
    if d == e {
      RoundToMonotone(m, n, u);
    } else {
      ExcessBounds(m);
      ExcessBounds(n);
      RoundToBounds(m, u, 0, 2 * TWO_52);
      RoundToBounds(n, v, TWO_52, 2 * TWO_52);
      assert Pow2(d + 1) == 2 * u;
      Pow2Monotone(d + 1, e);
      hide Pow2;
      assert 2 * TWO_52 * u <= TWO_52 * v;
    }
  }

  /** A larger integer never becomes a smaller double. */
  lemma ScaledIntMonotone(i: int, j: int)
    requires i <= j
    ensures ScaledInt(i) <= ScaledInt(j)
  {
    if i >= 0 {
      RoundMonotone(i, j);
    } else if j < 0 {
      RoundMonotone(-j, -i);
    }
    hide RoundNat;
    assert AsDouble(i) <= AsDouble(j);
    Scale(AsDouble(i), AsDouble(j), Pow2(1074));
  }

  lemma Scale(x: int, y: int, p: nat)
    requires x <= y
    ensures x * p <= y * p
  {
    assert (y - x) * p >= 0;
  }

  lemma {:induction false} SmallIsExact(n: nat)
    requires n <= 2 * TWO_52
    ensures RoundNat(n) == n
  {
    assert Pow2(0) == 1 && Pow2(1) == 2 * Pow2(0);
    if n == 2 * TWO_52 { assert n / 2 == TWO_52 && Excess(n / 2) == 0 && Excess(n) == 1; }
  }

  // ---- Comparing numbers ----------------------------------------------------------------------------------

  /** Two different integers that round to one double, with that double between them. */
  predicate Collides(a: Number, b: Number, c: Number) {
    a.Int? && b.Float? && c.Int? && a.i > c.i && ScaledInt(a.i) == Scaled(b.bits) == ScaledInt(c.i)
  }

  /** Comparing numbers backwards reverses the answer, and "not after" is transitive except for a collision. */
  lemma NumbersPreorder(a: Number, b: Number, c: Number)
    ensures CompareNumber(b, a) == Reverse(CompareNumber(a, b))
    ensures (!CompareNumber(a, b).Greater? && !CompareNumber(b, c).Greater? ==> !CompareNumber(a, c).Greater?)
            <==> !Collides(a, b, c)
  {
    IntegersKeepOrder(a, b);
    IntegersKeepOrder(b, c);
    IntegersKeepOrder(a, c);
    IntegersKeepOrder(c, a);
    hide ScaledInt, Scaled;
  }

  lemma IntegersKeepOrder(a: Number, b: Number)
    ensures a.Int? && b.Int? && a.i <= b.i ==> ScaledInt(a.i) <= ScaledInt(b.i)
  {
    if a.Int? && b.Int? && a.i <= b.i { ScaledIntMonotone(a.i, b.i); }
  }

  /** Integers up to 2^53 are exact, so no two of them collide. */
  lemma SmallIntegersDoNotCollide(a: Number, b: Number, c: Number)
    requires a.Int? ==> -2 * TWO_52 <= a.i <= 2 * TWO_52
    requires c.Int? ==> -2 * TWO_52 <= c.i <= 2 * TWO_52
    ensures !Collides(a, b, c)
  {
    if a.Int? && c.Int? && a.i > c.i {
      ScaledExact(a.i);
      ScaledExact(c.i);
      hide ScaledInt, Pow2;
      ScaleOrder(c.i, a.i, Pow2(1074));
    }
  }

  lemma ScaledExact(i: int)
    requires -2 * TWO_52 <= i <= 2 * TWO_52
    ensures ScaledInt(i) == i * Pow2(1074)
  {
    SmallIsExact(if i >= 0 then i else -i);
    hide RoundNat;
  }

  lemma ScaleOrder(x: int, y: int, p: nat)
    requires x < y && p >= 1
    ensures x * p < y * p
  {
    Scale(x + 1, y, p);
    assert (x + 1) * p == x * p + p;
  }

  /** 2^53 + 1 and 2^53 collide with the double 2^53. */
  lemma RoundedIntegersCollide()
    ensures Collides(Int(2 * TWO_52 + 1), Float(1076 * TWO_52), Int(2 * TWO_52))
  {
    var n := 2 * TWO_52;
    SmallIsExact(n);
    assert RoundNat(n + 1) == n by {
      assert Pow2(0) == 1 && Pow2(1) == 2 * Pow2(0);
      assert (n + 1) / 2 == TWO_52 && Excess(TWO_52) == 0 && Excess(n + 1) == 1;
    }
    hide RoundNat;
    assert Scaled(1076 * TWO_52) == n * Pow2(1074) by {
      assert Exponent(1076 * TWO_52) == 1076 && Fraction(1076 * TWO_52) == 0;
      assert Pow2(1075) == 2 * Pow2(1074);
    }
  }
}
