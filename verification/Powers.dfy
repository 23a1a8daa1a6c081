/** Powers of two, and how the zone allocator finds them: it converts to single
    precision and reads the exponent field. */
module Powers {

  function Pow2(n: nat): (r: nat)
    ensures r >= 1 && r > n
  {
    if n == 0 then 1 else 2 * Pow2(n - 1)
  }

  /** Floor of the binary logarithm. */
  function Log2(v: nat): (n: nat)
    requires v >= 1
    ensures Pow2(n) <= v < Pow2(n + 1)
  {
    if v == 1 then 0 else Log2(v / 2) + 1
  }

  lemma {:induction false} Monotone(m: nat, n: nat)
    requires m <= n
    ensures Pow2(m) <= Pow2(n)
    ensures m < n ==> 2 * Pow2(m) <= Pow2(n)
  {
    if m < n { Monotone(m, n - 1); }
  }

  lemma {:induction false} Sum(m: nat, n: nat)
    ensures Pow2(m + n) == Pow2(m) * Pow2(n)
  {
    if m > 0 {
      Sum(m - 1, n);
      assert m - 1 + n == m + n - 1;
      Twice(Pow2(m - 1), Pow2(n));
    }
  }

  lemma Twice(a: nat, b: nat)
    ensures 2 * (a * b) == (2 * a) * b
  {
  }

  lemma EightBits()
    ensures Pow2(8) == 256
  {
    assert Pow2(4) == 16;
    Sum(4, 4);
  }

  lemma LogUnique(v: nat, n: nat)
    requires v >= 1 && Pow2(n) <= v < Pow2(n + 1)
    ensures Log2(v) == n
  {
    if Log2(v) < n { Monotone(Log2(v) + 1, n); }
    if n < Log2(v) { Monotone(n + 1, Log2(v)); }
  }

  lemma LogOfPow2(n: nat)
    ensures Log2(Pow2(n)) == n
  {
    LogUnique(Pow2(n), n);
  }

  /** A float keeps 24 significant bits. */
  const MANTISSA: nat := 0x100_0000

  lemma {:induction false} Span(e: nat)
    ensures Pow2(e + 23) == 0x80_0000 * Pow2(e) && Pow2(e + 24) == MANTISSA * Pow2(e)
  {
    if e > 0 {
      Span(e - 1);
      assert Pow2(e) == 2 * Pow2(e - 1);
    } else {
      assert Pow2(4) == 16;
      Sum(4, 4);
      Sum(8, 8);
      Sum(16, 8);
      assert Pow2(24) == 2 * Pow2(23);
    }
  }

  lemma LogOfLarge(n: nat)
    requires n >= MANTISSA
    ensures Log2(n) >= 24
  {
    Span(0);
    if Log2(n) < 24 { Monotone(Log2(n) + 1, 0 + 24); }
  }

  /** Binary digits of n beyond the 24 that a float keeps. */
  function Exponent(n: nat): (e: nat)
    requires n >= MANTISSA
    ensures Log2(n) == e + 23
  {
    LogOfLarge(n);
    Log2(n) - 23
  }

  /** n as a single-precision float: ties to even. */
  function FloatRound(n: nat): nat
  {
    if n < MANTISSA then n else RoundTo(n, Pow2(Exponent(n)))
  }

  function RoundTo(n: nat, unit: nat): nat
    requires unit > 0
  {
    RoundQuotient(n / unit, n % unit, unit) * unit
  }

  function RoundQuotient(q: nat, r: nat, unit: nat): (q': nat)
    ensures q' == q || q' == q + 1
  {
    if 2 * r > unit || (2 * r == unit && q % 2 == 1) then q + 1 else q
  }

  lemma DivBounds(n: nat, unit: nat, lo: nat, hi: nat)
    requires unit > 0 && lo * unit <= n < hi * unit
    ensures lo <= n / unit < hi
    ensures n == (n / unit) * unit + n % unit
  {
    var q := n / unit;
    if q < lo {
      MulLe(q + 1, lo, unit);
    }
    if hi <= q {
      MulLe(hi, q, unit);
    }
  }

  lemma MulLe(a: nat, b: nat, c: nat)
    requires a <= b
    ensures a * c <= b * c
  {
  }

  /** The conversion to float crosses the next power of two: n is no further from it
      than half a unit in the last place. */
  predicate Overshoots(n: nat)
    requires n >= 1
  {
    n >= MANTISSA && 2 * n + Pow2(Exponent(n)) >= 2 * Pow2(Log2(n) + 1)
  }

  /** Rounding q * unit + r, for q just below 2^24 or further below it. */
  lemma RoundUpTo(q: nat, r: nat, unit: nat)
    requires unit > 0 && r < unit && 0x80_0000 <= q < MANTISSA
    ensures 0x80_0000 * unit <= RoundQuotient(q, r, unit) * unit <= MANTISSA * unit
    ensures RoundQuotient(q, r, unit) * unit == MANTISSA * unit <==> 2 * (q * unit + r) + unit >= 2 * (MANTISSA * unit)
  {
    var q' := RoundQuotient(q, r, unit);
    MulLe(0x80_0000, q', unit);
    MulLe(q', MANTISSA, unit);
    if q == MANTISSA - 1 {
      assert q * unit == MANTISSA * unit - unit;
    } else {
      MulLe(q' + 1, MANTISSA, unit);
      MulLe(q + 2, MANTISSA, unit);
      assert (q' + 1) * unit == q' * unit + unit;
      assert (q + 2) * unit == q * unit + 2 * unit;
    }
  }

  lemma RoundBounds(n: nat)
    requires n >= 1
    ensures Pow2(Log2(n)) <= FloatRound(n) <= Pow2(Log2(n) + 1)
    ensures FloatRound(n) == Pow2(Log2(n) + 1) <==> Overshoots(n)
  {
    if n >= MANTISSA {
      var e := Exponent(n);
      var unit := Pow2(e);
      Span(e);
      DivBounds(n, unit, 0x80_0000, MANTISSA);
      RoundUpTo(n / unit, n % unit, unit);
    }
  }

  function FloatLog(n: nat): nat
    requires n >= 1
  {
    RoundBounds(n);
    Log2(FloatRound(n))
  }

  /** round_pow_2: the exponent field of (float)(v - 1) is its logarithm plus 127, and
      the code shifts 1 by that minus 126. */
  function RoundPow2(v: nat): nat
    requires v >= 2
  {
    Pow2(FloatLog(v - 1) + 1)
  }

  lemma FloatLogIs(n: nat)
    requires n >= 1
    ensures FloatLog(n) == Log2(n) + if Overshoots(n) then 1 else 0
  {
    hide Pow2, Log2, FloatRound, Overshoots;
    RoundBounds(n);
    if Overshoots(n) {
      LogOfPow2(Log2(n) + 1);
    } else {
      LogUnique(FloatRound(n), Log2(n));
    }
  }

  lemma LeastPow2(n: nat, m: nat)
    requires n >= 1
    ensures Pow2(m) > n <==> m >= Log2(n) + 1
  {
    if m >= Log2(n) + 1 { Monotone(Log2(n) + 1, m); } else { Monotone(m, Log2(n)); }
  }

  /** The trick always gives a power of two that is large enough, and it is the least
      one exactly when the conversion does not overshoot. */
  lemma RoundPow2Least(v: nat)
    requires v >= 2
    ensures RoundPow2(v) >= v
    ensures (forall m: nat :: Pow2(m) >= v ==> Pow2(m) >= RoundPow2(v)) <==> !Overshoots(v - 1)
  {
    hide FloatLog, Overshoots, Log2;
    var l := Log2(v - 1);
    FloatLogIs(v - 1);
    Monotone(l + 1, FloatLog(v - 1) + 1);
    if Overshoots(v - 1) {
      assert Pow2(l + 1) >= v;
    } else {
      forall m: nat | Pow2(m) >= v ensures Pow2(m) >= RoundPow2(v) {
        LeastPow2(v - 1, m);
        Monotone(l + 1, m);
      }
    }
  }

  /** p is the least power of two at or above v. */
  ghost predicate LeastPower(v: nat, p: nat)
  {
    v <= p && (exists e: nat :: p == Pow2(e)) && forall e: nat :: Pow2(e) >= v ==> Pow2(e) >= p
  }

  lemma OneLeastPower(v: nat, p: nat, q: nat)
    requires LeastPower(v, p) && LeastPower(v, q)
    ensures p == q
  {
  }

  /** What the logarithm of the float gives is one more than that of the least power
      exactly when the conversion overshoots. */
  lemma FloatLogLeast(v: nat)
    requires v >= 2
    ensures LeastPower(v, Pow2(FloatLog(v - 1) + 1 - if Overshoots(v - 1) then 1 else 0))
  {
    hide Pow2, FloatLog, Overshoots, Log2;
    FloatLogIs(v - 1);
    var l := Log2(v - 1) + 1;
    LeastPow2(v - 1, l);
    forall e: nat | Pow2(e) >= v ensures Pow2(e) >= Pow2(l) {
      LeastPow2(v - 1, e);
      Monotone(l, e);
    }
  }

  /** No request below 2^25 overshoots: up to 2^24 every integer is a float, and then every
      second one. */
  lemma NoOvershootBelow(n: nat)
    requires 1 <= n < 2 * MANTISSA - 1
    ensures !Overshoots(n)
  {
    if n >= MANTISSA {
      Span(0);
      Span(1);
      LogUnique(n, 24);
    }
  }

  lemma RoundsTooFar()
    ensures RoundPow2(2 * MANTISSA) == 4 * MANTISSA && Overshoots(2 * MANTISSA - 1)
  {
    var n := 2 * MANTISSA - 1;
    Span(0);
    Span(1);
    assert Pow2(2 + 24) == 2 * Pow2(1 + 24);
    LogUnique(n, 0 + 24);
    FloatLogIs(n);
  }

  /** The first request for which a power of two is rounded up to the next one. */
  lemma FirstOvershoot()
    ensures RoundPow2(2 * MANTISSA) == 4 * MANTISSA
    ensures Overshoots(2 * MANTISSA - 1) && forall n: nat :: 1 <= n < 2 * MANTISSA - 1 ==> !Overshoots(n)
  {
    hide Overshoots, RoundPow2;
    RoundsTooFar();
    forall n: nat | 1 <= n < 2 * MANTISSA - 1 ensures !Overshoots(n) { NoOvershootBelow(n); }
  }
}
