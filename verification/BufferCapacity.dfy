/** The big integers' fixed buffers of 32 limbs are large enough for every double. */
module BufferCapacity {
  import opened Positional
  import opened LimbArithmetic
  import opened BigIntegers
  import opened ShortestDigits
  import opened ScaledFloats

  /**
   * A double, and the decimal exponent of its upper boundary's first digit, or the next exponent: the caller takes it
   * from a 64-bit approximation that may lie a little above the boundary, and so reach the next power of ten.
   */
  ghost predicate OfDouble(v: Fp, exp10: int) {
    var s := Scale(v, exp10);
    v.Valid() && -1074 <= v.e <= 971 && ExponentFits(v, exp10) && s.den <= 10 * (s.num + s.upper)
  }

  /** Where the lowest limb of the four numbers can be. */
  function Lowest(v: Fp, exp10: int): nat {
    Min(LowerExp(v, exp10), DenominatorExp(v, exp10))
  }

  /** A number fits its buffer even with zero limbs put below it, down to the lowest limb of all. */
  ghost predicate HasRoom(n: Bigint, lowest: nat)
    reads n
  {
    lowest <= n.exp && |n.bigits| + (n.exp - lowest) <= CAPACITY
  }

  lemma {:induction false} TenBelow(k: nat)
    ensures Pow(10, k) <= Pow(2, 4 * k)
  {
    PowLeft(10, 16, k);
    assert Pow(2, 4) == 16;
    PowOfPow(2, 4, k);
  }

  /** x < a * 2^m with a < 2^k: then x < 2^(k + m). */
  lemma {:induction false} Below(x: nat, a: nat, k: nat, u: nat, m: nat)
    requires x <= a * u && a < Pow(2, k) && u <= Pow(2, m)
    ensures x <= Pow(2, k + m)
  {
    PowAdd(2, k, m);
    hide Pow;
    MulMonotonic(a, Pow(2, k), u);
    MulMonotonic(u, Pow(2, m), Pow(2, k));
  }

  lemma {:induction false} TwentyTimes(x: nat, m: nat)
    requires x <= Pow(2, m)
    ensures 20 * x <= Pow(2, m + 5) && 10 * x <= Pow(2, m + 4)
  {
    PowAdd(2, 5, m);
    PowAdd(2, 4, m);
    assert Pow(2, 4) == 16 && Pow(2, 5) == 32;
  }

  lemma {:induction false} TwoToThe55()
    ensures Pow(2, 55) == 0x80_0000_0000_0000
  {
    assert Pow(2, 11) == 2048;
    PowAdd(2, 11, 12);
    PowAdd(2, 23, 32);
    Pow2At32();
  }

  /** The significand with its shift and half a unit more has at most 55 bits. */
  lemma {:induction false} Significand(v: Fp)
    requires v.Valid()
    ensures v.f * Pow(2, Shift(v)) + 2 < Pow(2, 55)
  {
    hide Pow;
    PowersOfTwo();
    TwoToThe55();
  }

  /** The upper boundary is at most significand plus half a unit, times a unit. */
  lemma {:induction false} BoundaryBelow(v: Fp, exp10: int, m: nat)
    requires v.Valid() && Pow(2, Up(v.e)) * Pow(10, Up(-exp10)) <= Pow(2, m)
    ensures var s := Scale(v, exp10); 10 * (s.num + s.upper) <= Pow(2, m + 59)
  {
    hide Pow;
    var s, unit := Scale(v, exp10), Pow(2, Up(v.e)) * Pow(10, Up(-exp10));
    Significand(v);
    Distribute(v.f * Pow(2, Shift(v)), 2, unit);
    Below(s.num + s.upper, v.f * Pow(2, Shift(v)) + 2, 55, unit, m);
    TwentyTimes(s.num + s.upper, 55 + m);
  }

  lemma {:induction false} DenominatorBelow(v: Fp, exp10: int, m: nat)
    requires OfDouble(v, exp10) && Pow(2, Up(v.e)) * Pow(10, Up(-exp10)) <= Pow(2, m)
    ensures 20 * Started(v, exp10).den <= Pow(2, m + 64)
  {
    hide Pow, Started, ExponentFits;
    StartedBelow(v, exp10);
    BoundaryBelow(v, exp10, m);
    hide Scale;
    TwentyTimes(Scale(v, exp10).den, m + 59);
  }

  lemma {:induction false} StartedBelow(v: Fp, exp10: int)
    ensures Started(v, exp10).den <= Scale(v, exp10).den
  {
    PowersOfTwo();
    if v.closer && v.e >= 0 {
      MulMonotonic(2, 4, Pow(10, Up(exp10)));
    }
  }

  // ----- The denominator -----

  /** The denominator, times twenty, has at most 32 limbs more than lie below the lowest limb. */
  lemma {:induction false} DenominatorFits(v: Fp, exp10: int)
    requires OfDouble(v, exp10)
    ensures 20 * Started(v, exp10).den <= Pow(BASE, CAPACITY + Lowest(v, exp10))
  {
    hide Scale, Started, ExponentFits, Pow;
    PowersOfTwo();
    if v.e >= 0 {
      LargeExponent(v, exp10);
      if v.e < 960 {
        DenominatorBelow(v, exp10, v.e);
        LimbsOf(20 * Started(v, exp10).den, v.e + 64, CAPACITY, Lowest(v, exp10));
      } else {
        LargeDecimal(v, exp10);
        DenominatorBelow(v, exp10, v.e);
        LimbsOf(20 * Started(v, exp10).den, v.e + 64, CAPACITY + 1, Lowest(v, exp10) - 1);
      }
    } else if exp10 >= 0 {
      DenominatorBelow(v, exp10, 0);
      LimbsOf(20 * Started(v, exp10).den, 64, CAPACITY, Lowest(v, exp10));
    } else if exp10 > -64 {
      TenBelow(-exp10);
      PowMonotonic(2, -4 * exp10, 256);
      DenominatorBelow(v, exp10, 256);
      LimbsOf(20 * Started(v, exp10).den, 320, CAPACITY, Lowest(v, exp10));
    } else {
      SmallExponent(v, exp10);
      ScaleSmall(v, exp10);
      TwentyTimes(Started(v, exp10).den, Shift(v) - v.e);
      LimbsOf(20 * Started(v, exp10).den, Shift(v) - v.e + 5, CAPACITY + 2, Lowest(v, exp10) - 2);
    }
  }

  lemma {:induction false} LimbsOf(x: nat, m: nat, k: nat, more: nat)
    requires x <= Pow(2, m) && m <= 32 * k
    ensures x <= Pow(BASE, k + more)
  {
    PowMonotonic(2, m, 32 * k);
    PowersOfBase(k);
    PowMonotonic(BASE, k, k + more);
  }

  /** A number this large has a decimal exponent of at least 32. */
  lemma {:induction false} LargeDecimal(v: Fp, exp10: int)
    requires OfDouble(v, exp10) && v.e >= 960 && exp10 >= 0
    ensures exp10 >= 32
  {
    if exp10 < 32 {
      hide Pow, Scale, Started, ExponentFits;
      TenTens(exp10);
      PowMonotonic(2, 132, v.e);
      TooLarge(v.f, Pow(2, Shift(v)), Pow(2, v.e), Pow(10, exp10));
      BelowTenth(v, exp10);
    }
  }

  /** Ten times 10^k, for a small k. */
  lemma {:induction false} TenTens(k: nat)
    requires k < 32
    ensures 10 * Pow(10, k) <= Pow(2, 132)
  {
    PowStep(10, k + 1);
    hide Pow;
    TenBelow(k + 1);
    PowMonotonic(2, 4 * (k + 1), 132);
  }

  lemma {:induction false} BelowTenth(v: Fp, exp10: int)
    requires ExponentFits(v, exp10) && v.e >= 0 && exp10 >= 0
    ensures v.f * Pow(2, Shift(v)) * Pow(2, v.e) < 10 * (Pow(10, exp10) * Pow(2, Shift(v)))
  {
    hide Pow;
    PowersOfTwo();
  }

  // ----- The numbers of the digit loop -----

  /** What never reaches twenty denominators, and starts no lower than the lowest limb, fits. */
  lemma {:induction false} NumberFits(v: Fp, exp10: int, n: Bigint)
    requires OfDouble(v, exp10) && n.Normalised() && n.Value() < 20 * Started(v, exp10).den && n.exp >= Lowest(v, exp10)
    ensures HasRoom(n, Lowest(v, exp10))
  {
    hide Pow, Num, Started, OfDouble, Lowest;
    DenominatorFits(v, exp10);
    ShortNumber(n.bigits, n.exp, 20 * Started(v, exp10).den, CAPACITY + Lowest(v, exp10));
  }

  // ----- The powers of ten -----

  lemma {:induction false} TenAbove(k: nat)
    ensures Pow(2, 3 * k) <= Pow(10, k)
  {
    PowLeft(8, 10, k);
    assert Pow(2, 3) == 8;
    PowOfPow(2, 3, k);
  }

  /** The decimal exponent of a double. */
  lemma {:induction false} DecimalExponents(v: Fp, exp10: int)
    requires OfDouble(v, exp10)
    ensures -360 <= exp10 <= 343
  {
    hide Scale, Started, ExponentFits, Pow;
    if exp10 >= 0 {
      PositiveExponent(v, exp10);
    } else if v.e >= 0 {
      LargeExponent(v, exp10);
    } else {
      NegativeExponent(v, exp10);
    }
  }

  lemma {:induction false} PositiveExponent(v: Fp, exp10: int)
    requires OfDouble(v, exp10) && exp10 >= 0
    ensures exp10 <= 343
  {
    hide Pow, ExponentFits;
    PowersOfTwo();
    PowMonotonic(2, Up(v.e), 971);
    BoundaryBelow(v, exp10, 971);
    MulGrows(Pow(10, exp10), Pow(2, Up(-v.e)));
    MulGrows(Pow(10, exp10) * Pow(2, Up(-v.e)), Pow(2, Shift(v)));
    TenAbove(exp10);
    if exp10 > 343 {
      PowStrict(2, 1030, 3 * exp10);
    }
  }

  lemma {:induction false} NegativeExponent(v: Fp, exp10: int)
    requires OfDouble(v, exp10) && exp10 < 0 && v.e < 0
    ensures -360 <= exp10
  {
    hide Pow, Started;
    PowersOfTwo();
    var s, k, two := Scale(v, exp10), -exp10, Pow(2, Shift(v));
    TenAbove(k);
    MulMonotonic(1, v.f * two, Pow(10, k));
    PowAdd(2, -v.e, Shift(v));
    PowMonotonic(2, Shift(v) - v.e, 1076);
    PowAdd(2, 4, 1076);
    assert Pow(2, 4) == 16 by {
      PowAdd(2, 2, 2);
    }
    if k > 360 {
      PowMonotonic(2, 1080, 3 * k);
    }
  }

  /** The double next to 10^23 is below it, and its upper boundary is 10^23: the exponent is 23 all the same. */
  lemma {:induction false} NextToTenTo23()
    ensures var v := Fp(5960464477539062, 24, false); OfDouble(v, 23) && Scale(v, 23).num < Scale(v, 23).den
  {
    assert Pow(10, 6) == 1000000 && Pow(10, 5) == 100000;
    PowAdd(10, 6, 6);
    PowAdd(10, 12, 6);
    PowAdd(10, 18, 5);
    assert Pow(2, 8) == 256;
    PowAdd(2, 8, 8);
    PowAdd(2, 16, 8);
    PowersOfTwo();
  }
}
