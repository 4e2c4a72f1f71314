/**
 The tile counts are computed as ceil(float(a) / b) in single precision. This module spells out that
 computation over the integers, with round-to-nearest-even (section 4.3.1 of IEEE 754-2019) at each
 of its three roundings, and shows when it is the exact integer ceiling.

 All operands are non-negative and no quotient underflows, so a float is a pair m * 2^e.
 */
module FloatGrid {
  import opened Arith

  const TWO23: nat := 0x80_0000
  const TWO24: nat := 0x100_0000

  datatype Float = Float(m: nat, e: int)

  /** p * 2^n */
  function Shift(p: nat, n: nat): (r: nat)
    ensures p > 0 ==> r > 0
    decreases n
  {
    if n == 0 then p else Shift(2 * p, n - 1)
  }

  /** The least c with a <= c * b. */
  function CeilDiv(a: nat, b: nat): nat
    requires b > 0
  {
    if Rem(b, a) == 0 then Quo(b, a) else Quo(b, a) + 1
  }

  /** The integer nearest to p / q, ties to the even one. */
  function RoundHalfEven(p: nat, q: nat): nat
    requires q > 0
  {
    var f, r := Quo(q, p), Rem(q, p);
    if 2 * r < q || (2 * r == q && f % 2 == 0) then f else f + 1
  }

  /** How often q must be doubled before p / q drops below 2^24. */
  function Coarser(p: nat, q: nat): nat
    requires q > 0
    decreases p - q
  {
    if p < TWO24 * q then 0 else 1 + Coarser(p, 2 * q)
  }

  /** How often p must be doubled before p / q reaches 2^23. */
  function Finer(p: nat, q: nat): nat
    requires p > 0
    decreases TWO23 * q - p
  {
    if p >= TWO23 * q then 0 else 1 + Finer(2 * p, q)
  }

  /** The single-precision number nearest to the rational p / q. */
  function RoundQuotient(p: nat, q: nat): Float
    requires q > 0
  {
    if p == 0 then Float(0, 0)
    else if p >= TWO24 * q then
      var up := Coarser(p, q);
      Float(RoundHalfEven(p, Shift(q, up)), up)
    else
      var down := Finer(p, q);
      Float(RoundHalfEven(Shift(p, down), q), -(down as int))
  }

  /** std::ceil followed by the conversion to int. */
  function Ceil(x: Float): nat {
    if x.e >= 0 then Shift(x.m, x.e) else CeilDiv(x.m, Shift(1, -x.e))
  }

  /** static_cast<float>(n); integers up to 2^24 are representable, so the result is an integer. */
  function FloatOfInt(n: nat): (r: nat)
    ensures n > 0 ==> r > 0
  {
    if n < TWO24 then n
    else
      var ulp := Shift(1, Coarser(n, 1));
      CoarserNormalises(n, 1);
      RoundAtLeast(n, ulp, TWO23);
      TimesMonotone(ulp, 1, RoundHalfEven(n, ulp));
      Times(ulp, RoundHalfEven(n, ulp))
  }

  /** ceil(float(a) / float(b)). */
  function FloatCeilDiv(a: nat, b: nat): nat
    requires b > 0
  {
    Ceil(RoundQuotient(FloatOfInt(a), FloatOfInt(b)))
  }

  // ---- Elementary facts ----

  lemma MulStep(q: nat, x: nat, y: nat)
    requires x < y
    ensures q * x + q <= q * y
  {
    assert q * y == q * x + q * (y - x);
    assert q * (y - x) == q + q * (y - x - 1);
  }

  lemma DivMod(p: nat, q: nat)
    requires q > 0
    ensures p == q * Quo(q, p) + Rem(q, p) && Rem(q, p) < q
  {
    Split(q, p);
    TimesIsProduct(q, Quo(q, p));
  }

  /** If p lies between q * n and q * m + q, so does its quotient. */
  lemma QuotientBetween(p: nat, q: nat, n: nat, m: nat)
    requires q > 0 && q * n <= p < q * m + q
    ensures n <= Quo(q, p) <= m
  {
    hide Quo, Rem;
    DivMod(p, q);
    if Quo(q, p) < n {
      MulStep(q, Quo(q, p), n);
    } else if m < Quo(q, p) {
      MulStep(q, m, Quo(q, p));
    }
  }

  lemma {:induction false} ShiftIsProduct(p: nat, n: nat)
    ensures Shift(p, n) == p * Shift(1, n)
    decreases n
  {
    if n > 0 {
      ShiftIsProduct(2 * p, n - 1);
      ShiftIsProduct(2, n - 1);
      assert p * (2 * Shift(1, n - 1)) == (2 * p) * Shift(1, n - 1);
    }
  }

  lemma CeilDivUnique(a: nat, b: nat, c: nat)
    requires b > 0
    requires a <= b * c
    requires c > 0 ==> b * (c - 1) < a
    ensures CeilDiv(a, b) == c
  {
    DivMod(a, b);
    if a == b * c {
      QuotientBetween(a, b, c, c);
    } else {
      assert b * c == b * (c - 1) + b;
      QuotientBetween(a, b, c - 1, c - 1);
    }
  }

  lemma CeilDivBounds(a: nat, b: nat)
    requires b > 0
    ensures a <= b * CeilDiv(a, b)
    ensures a > 0 ==> CeilDiv(a, b) > 0 && b * (CeilDiv(a, b) - 1) < a
  {
    DivMod(a, b);
    var f := Quo(b, a);
    assert b * (f + 1) == b * f + b;
    if a > 0 && Rem(b, a) == 0 {
      assert f != 0;
      assert b * (f - 1) == b * f - b;
    }
  }

  lemma RoundUpper(p: nat, q: nat, n: nat)
    requires q > 0 && p <= q * n
    ensures RoundHalfEven(p, q) <= n
  {
    DivMod(p, q);
    QuotientBetween(p, q, 0, n);
  }

  /** A quotient more than half an ulp above n rounds to at least n + 1. */
  lemma RoundLower(p: nat, q: nat, n: nat, d: nat)
    requires q > 0 && q < 2 * d && p >= q * n + d
    ensures RoundHalfEven(p, q) >= n + 1
  {
    DivMod(p, q);
    QuotientBetween(p, q, n, p);
  }

  lemma RoundExact(n: nat, q: nat)
    requires q > 0
    ensures RoundHalfEven(q * n, q) == n
  {
    DivMod(q * n, q);
    QuotientBetween(q * n, q, n, n);
  }

  /** A quotient of at least n rounds to at least n. */
  lemma RoundAtLeast(p: nat, q: nat, n: nat)
    requires q > 0 && q * n <= p
    ensures RoundHalfEven(p, q) >= n
  {
    QuotientBetween(p, q, n, p);
  }

  lemma {:induction false} FinerNormalises(p: nat, q: nat)
    requires 0 < p < TWO24 * q
    ensures TWO23 * q <= Shift(p, Finer(p, q)) < TWO24 * q
    decreases TWO23 * q - p
  {
    if p < TWO23 * q {
      FinerNormalises(2 * p, q);
    }
  }

  lemma {:induction false} CoarserNormalises(p: nat, q: nat)
    requires q > 0 && p >= TWO24 * q
    ensures Coarser(p, q) > 0
    ensures TWO23 * Shift(q, Coarser(p, q)) <= p
    decreases p - q
  {
    if p >= TWO24 * (2 * q) {
      CoarserNormalises(p, 2 * q);
    } else {
      assert Coarser(p, 2 * q) == 0 && Coarser(p, q) == 1;
      assert Shift(q, 1) == 2 * q by { assert Shift(2 * q, 0) == 2 * q; }
    }
  }

  // ---- The roundings are those of the standard ----

  /** The distance between n quotients of size 1 / q and p / q, times q. */
  function Distance(p: nat, q: nat, n: nat): nat {
    if p >= q * n then p - q * n else q * n - p
  }

  /** RoundHalfEven is at most half a unit away, and even when it is exactly half a unit away. */
  lemma RoundIsNearest(p: nat, q: nat)
    requires q > 0
    ensures 2 * Distance(p, q, RoundHalfEven(p, q)) <= q
    ensures 2 * Distance(p, q, RoundHalfEven(p, q)) == q ==> RoundHalfEven(p, q) % 2 == 0
  {
    hide Quo, Rem;
    DivMod(p, q);
    assert q * (Quo(q, p) + 1) == q * Quo(q, p) + q;
  }

  lemma {:induction false} CoarserBounds(p: nat, q: nat)
    requires q > 0 && p >= TWO24 * q
    ensures TWO23 * Shift(q, Coarser(p, q)) <= p < TWO24 * Shift(q, Coarser(p, q))
    decreases p - q
  {
    CoarserNormalises(p, q);
    if p >= TWO24 * (2 * q) {
      CoarserBounds(p, 2 * q);
    } else {
      assert Coarser(p, 2 * q) == 0 && Coarser(p, q) == 1;
      assert Shift(q, 1) == 2 * q by { assert Shift(2 * q, 0) == 2 * q; }
    }
  }

  /**
   RoundQuotient is the rounding of p / q to 24 significant bits: with the numerator or the denominator
   scaled by a power of two, the quotient lies between 2^23 and 2^24, and the mantissa is the nearest
   integer to it, the even one of two.
   */
  lemma QuotientIsRounded(p: nat, q: nat)
    requires p > 0 && q > 0
    ensures var x := RoundQuotient(p, q);
            var p', q' := if x.e > 0 then p else Shift(p, -x.e), if x.e > 0 then Shift(q, x.e) else q;
            && TWO23 * q' <= p' < TWO24 * q' && q' > 0
            && x.m == RoundHalfEven(p', q') && TWO23 <= x.m <= TWO24
  {
    if p >= TWO24 * q {
      CoarserBounds(p, q);
      var q' := Shift(q, Coarser(p, q));
      CoarserNormalises(p, q);
      RoundUpper(p, q', TWO24);
      RoundAtLeast(p, q', TWO23);
    } else {
      FinerNormalises(p, q);
      var p' := Shift(p, Finer(p, q));
      RoundUpper(p', q, TWO24);
      RoundAtLeast(p', q, TWO23);
    }
  }

  // ---- The quotient ----

  /** The rounded mantissa of p / q lies in the same unit interval, scaled by d, as p / q itself. */
  lemma MantissaBracket(p: nat, q: nat, d: nat, c: nat)
    requires 0 < p <= TWO24 && q > 0 && d > 0 && c > 0
    requires TWO23 * q <= p * d
    requires q * (c - 1) < p <= q * c
    ensures d * (c - 1) < RoundHalfEven(p * d, q) <= d * c
  {
    hide RoundHalfEven;
    ScaleBounds(p, q, d, c);
    RoundUpper(p * d, q, d * c);
    RoundAbove(p * d, q, d, d * (c - 1));
  }

  /** A quotient that is d / q above n, with a mantissa of 24 bits, rounds to more than n. */
  lemma RoundAbove(p: nat, q: nat, d: nat, n: nat)
    requires q > 0 && d > 0 && q * n + d <= p && TWO23 * q <= p <= TWO24 * d
    ensures RoundHalfEven(p, q) > n
  {
    hide RoundHalfEven;
    if q < 2 * d {
      RoundLower(p, q, n, d);
    } else {
      assert p == q * TWO23;
      RoundExact(TWO23, q);
      if n >= TWO23 {
        MulLe(q, TWO23, n);
        assert false;
      }
    }
  }

  lemma ScaleBounds(p: nat, q: nat, d: nat, c: nat)
    requires p <= TWO24 && d > 0 && c > 0
    requires q * (c - 1) < p <= q * c
    ensures q * (d * (c - 1)) + d <= p * d <= q * (d * c)
    ensures p * d <= TWO24 * d
  {
    MulLe(d, p, q * c);
    MulLe(d, q * (c - 1) + 1, p);
    MulLe(d, p, TWO24);
    assert d * (q * c) == q * (d * c);
    assert d * (q * (c - 1) + 1) == q * (d * (c - 1)) + d;
  }

  lemma MulLe(q: nat, x: nat, y: nat)
    requires x <= y
    ensures q * x <= q * y
  {
    if x < y { MulStep(q, x, y); }
  }

  lemma QuotientCeil(p: nat, q: nat)
    requires p <= TWO24 && q > 0
    ensures Ceil(RoundQuotient(p, q)) == CeilDiv(p, q)
  {
    if p >= TWO24 * q {
      assert p == TWO24 && q == 1;
      LargestQuotient();
    } else if p > 0 {
      hide Quo, Rem, CeilDiv, RoundHalfEven, Shift;
      var down := Finer(p, q);
      var d := Shift(1, down);
      FinerNormalises(p, q);
      ShiftIsProduct(p, down);
      CeilDivBounds(p, q);
      var c := CeilDiv(p, q);
      MantissaBracket(p, q, d, c);
      var m := RoundHalfEven(p * d, q);
      if down == 0 {
        assert d == 1 by { ShiftZero(); }
        assert Shift(m, 0) == m by { ShiftIsProduct(m, 0); }
      } else {
        CeilDivUnique(m, d, c);
      }
    }
  }

  lemma ShiftZero()
    ensures Shift(1, 0) == 1
  {
  }

  /** 2^24 is the smallest number that is rounded to a multiple of 2. */
  lemma LargestQuotient()
    ensures Coarser(TWO24, 1) == 1 && Shift(1, 1) == 2
    ensures RoundHalfEven(TWO24, 2) == TWO23
    ensures Ceil(RoundQuotient(TWO24, 1)) == CeilDiv(TWO24, 1)
  {
    hide Quo, Rem, RoundHalfEven, CeilDiv;
    assert Coarser(TWO24, 1) == 1 by { assert Coarser(TWO24, 2) == 0; }
    assert Shift(1, 1) == 2 by { assert Shift(2, 0) == 2; }
    RoundExact(TWO23, 2);
    assert Shift(TWO23, 1) == TWO24 by { assert Shift(TWO24, 0) == TWO24; }
    CeilDivUnique(TWO24, 1, TWO24);
  }

  /** Converting an int never brings it below 2^24 when it was not below before. */
  lemma FloatOfIntLarge(n: nat)
    requires n >= TWO24
    ensures FloatOfInt(n) >= TWO24
    ensures n == TWO24 ==> FloatOfInt(n) == TWO24
  {
    hide Quo, Rem, RoundHalfEven;
    CoarserNormalises(n, 1);
    var up := Coarser(n, 1);
    var ulp := Shift(1, up);
    var m := RoundHalfEven(n, ulp);
    assert ulp >= 2 by {
      ShiftIsProduct(2, up - 1);
    }
    RoundAtLeast(n, ulp, TWO23);
    TimesMonotone(ulp, TWO23, m);
    TimesIsProduct(ulp, TWO23);
    if n == TWO24 {
      LargestQuotient();
      TimesIsProduct(2, TWO23);
    }
  }

  /**
   For a dividend up to 2^24 and any divisor, the three roundings are invisible: the float
   computation is the integer ceiling.
   */
  lemma FloatCeilDivExact(a: nat, b: nat)
    requires a <= TWO24 && b > 0
    ensures FloatCeilDiv(a, b) == CeilDiv(a, b)
  {
    hide CeilDiv, RoundQuotient, Ceil;
    if a == TWO24 {
      FloatOfIntLarge(a);
    }
    if b >= TWO24 {
      FloatOfIntLarge(b);
      CeilDivUnique(a, b, if a > 0 then 1 else 0);
      CeilDivUnique(a, FloatOfInt(b), if a > 0 then 1 else 0);
    }
    QuotientCeil(a, FloatOfInt(b));
  }

  /** For step 1 the bound is sharp: one past it the conversion already loses a tile. */
  lemma FloatCeilDivInexact()
    ensures FloatCeilDiv(TWO24 + 1, 1) == CeilDiv(TWO24 + 1, 1) - 1
  {
    hide CeilDiv, RoundQuotient, Ceil;
    var n := TWO24 + 1;
    assert Coarser(n, 1) == 1 by { assert Coarser(n, 2) == 0; }
    LargestQuotient();
    assert RoundHalfEven(n, 2) == TWO23 by {
      DivMod(n, 2);
      QuotientBetween(n, 2, TWO23, TWO23);
    }
    TimesIsProduct(2, TWO23);
    QuotientCeil(TWO24, 1);
    CeilDivUnique(TWO24, 1, TWO24);
    CeilDivUnique(n, 1, n);
  }

  /** 2^24 is the largest bound below which the float computation is exact for every divisor. */
  lemma ExactForAllDivisors(n: nat)
    ensures (forall a: nat, b: nat :: a <= n && b > 0 ==> FloatCeilDiv(a, b) == CeilDiv(a, b)) <==> n <= TWO24
  {
    hide FloatCeilDiv, CeilDiv;
    forall a: nat, b: nat | a <= n <= TWO24 && b > 0
      ensures FloatCeilDiv(a, b) == CeilDiv(a, b)
    {
      FloatCeilDivExact(a, b);
    }
    FloatCeilDivInexact();
  }
}
