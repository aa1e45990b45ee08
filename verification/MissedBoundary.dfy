/**
 * When the lower boundary of a number with a large binary exponent is the shortest decimal that could be printed: an
 * arithmetic test on the significand and the two exponents.
 */
module MissedBoundary {
  import opened Positional
  import opened LimbArithmetic
  import opened ShortestDigits
  import opened ScaledFloats
  import opened ExactPrinter

  /**
   * The lower boundary is (2f - 1) * 2^(e - 1). It is a multiple of 10^t, and no other multiple lies between the
   * boundaries because they are less than 10^t apart.
   */
  predicate EndsInZeros(v: Fp, t: nat) {
    t < v.e && (2 * v.f - 1) % Pow(5, t) == 0 && Pow(10, t) > Pow(2, v.e)
  }

  /** The lower boundary counts, goes unseen, and is a multiple of such a power of ten. */
  predicate BoundaryMissed(v: Fp, exp10: int) {
    v.f % 2 == 0 && !BoundarySeen(v, exp10) && exists t: nat :: 0 < t <= exp10 && EndsInZeros(v, t)
  }

  // ----- The scaled comparison for a large exponent -----

  lemma {:induction false} LargeScale(v: Fp, exp10: int)
    requires v.Valid() && !v.closer && v.e >= 0 && exp10 >= 0
    ensures Scale(v, exp10) == Scaled(2 * v.f * Pow(2, v.e), 2 * Pow(10, exp10), Pow(2, v.e), Pow(2, v.e))
  {
    PowersOfTwo();
  }

  /** Above the boundary the next decimal of that length is one unit away. */
  lemma {:induction false} NothingElseMeans(s: Scaled, d: int, k: nat)
    requires s.den > 0 && s.lower == s.upper <= s.num && BoundaryDecimal(s, d, k)
    ensures NothingElse(s, k, true) <==> s.den > 2 * (Pow(10, k) * s.upper)
  {
    var p := Pow(10, k);
    hide Pow;
    Distribute(s.num, s.lower, p);
    Distribute(d, 1, s.den);
    if s.den > 2 * (p * s.upper) {
      forall d': int
        ensures !Within(s, d', p, false, true)
      {
        if d' <= d {
          MulMonotonic(d', d, s.den);
        } else {
          MulMonotonic(d + 1, d', s.den);
        }
      }
    } else {
      assert Within(s, d + 1, p, false, true);
    }
  }

  // ----- Divisibility -----

  /** An odd factor of twice a number is a factor of the number. */
  lemma {:induction false} HalveMultiple(m: nat, d: int, x: int) returns (h: int)
    requires m % 2 == 1 && d * m == 2 * x
    ensures h * m == x
  {
    h := d / 2;
    MulAssoc(2, h, m);
    if d % 2 == 1 {
      OddProduct(d, m);
      assert false;
    }
  }

  lemma {:induction false} OddProduct(a: int, b: int)
    requires a % 2 == 1 && b % 2 == 1
    ensures (a * b) % 2 == 1
  {
    var x := a / 2;
    assert a == 2 * x + 1;
    Distribute(2 * x, 1, b);
    MulAssoc(2, x, b);
    OddSum(x * b, b, a * b);
  }

  lemma {:induction false} OddSum(z: int, b: int, c: int)
    requires c == 2 * z + b && b % 2 == 1
    ensures c % 2 == 1
  {
  }

  /** A power of five that divides a number times a power of two divides the number. */
  lemma {:induction false} CancelTwos(t: nat, j: nat, d: int, o: int) returns (q: int)
    requires d * Pow(5, t) == o * Pow(2, j)
    ensures q * Pow(5, t) == o
  {
    OddPower(t);
    if j == 0 {
      q := d;
      assert Pow(2, 0) == 1;
    } else {
      PowStep(2, j);
      hide Pow;
      MulAssoc(2, o, Pow(2, j - 1));
      MulSwap(o, 2, Pow(2, j - 1));
      MulAssoc(o, 2, Pow(2, j - 1));
      var h := HalveMultiple(Pow(5, t), d, o * Pow(2, j - 1));
      q := CancelTwos(t, j - 1, h, o);
    }
  }

  lemma {:induction false} MultipleMeans(o: nat, m: nat, q: int)
    requires m > 0
    ensures q * m == o ==> o % m == 0
    ensures o % m == 0 ==> o / m * m == o
  {
    DivModEquation(o, m);
    if q * m == o {
      if q < 0 {
        MulMonotonic(q, -1, m);
      }
      DivModUnique(o, m, q, 0);
    }
  }

  // ----- The boundary as a multiple of a power of ten -----

  /** d * 10^t is the boundary, where u = 2^e. */
  ghost predicate IsBoundary(v: Fp, d: int, t: nat)
    requires v.e >= 0
  {
    d * 2 * Pow(10, t) == (2 * v.f - 1) * Pow(2, v.e)
  }

  /** Only a power of ten with fewer twos than the boundary and with its fives in 2f - 1 can divide it. */
  lemma {:induction false} BoundaryDivides(v: Fp, d: int, t: nat)
    requires v.Valid() && v.e >= 0 && IsBoundary(v, d, t)
    ensures t < v.e && (2 * v.f - 1) % Pow(5, t) == 0
  {
    var o := 2 * v.f - 1;
    PowOfProduct(5, 2, t);
    if t >= v.e {
      PowAdd(2, t - v.e, v.e);
      hide Pow;
      TooManyTwos(d, Pow(5, t), Pow(2, t - v.e), Pow(2, v.e), o);
    } else {
      var j := v.e - t - 1;
      PowAdd(2, j, t + 1);
      PowStep(2, t + 1);
      hide Pow;
      FewerTwos(d, Pow(5, t), Pow(2, t), Pow(2, j), o);
      var q := CancelTwos(t, j, d, o);
      MultipleMeans(o, Pow(5, t), q);
    }
  }

  lemma {:induction false} TooManyTwos(d: int, five: int, more: int, u: int, o: int)
    requires u > 0 && o % 2 == 1
    ensures d * 2 * (five * (more * u)) != o * u
  {
    var x := d * five * more;
    assert d * 2 * (five * (more * u)) == 2 * x * u;
    SameMultiple(2 * x, o, u);
  }

  lemma {:induction false} FewerTwos(d: int, five: int, two: int, rest: int, o: int)
    requires two > 0
    ensures d * 2 * (five * two) == o * (rest * (2 * two)) <==> d * five == o * rest
  {
    RegroupTwos(d, five, two, rest, o);
    SameMultiple(d * five, o * rest, 2 * two);
  }

  lemma {:induction false} RegroupTwos(d: int, five: int, two: int, rest: int, o: int)
    ensures d * 2 * (five * two) == d * five * (2 * two)
    ensures o * (rest * (2 * two)) == o * rest * (2 * two)
  {
    MulAssoc(o, rest, 2 * two);
    MulAssoc(d, 2, five * two);
    MulAssoc(d, five, 2 * two);
    MulAssoc(2, five, two);
    MulAssoc(five, 2, two);
  }

  /** And then it does divide it. */
  lemma {:induction false} BoundaryDivided(v: Fp, t: nat) returns (d: int)
    requires v.Valid() && t < v.e && (2 * v.f - 1) % Pow(5, t) == 0
    ensures IsBoundary(v, d, t)
  {
    var o, j := 2 * v.f - 1, v.e - t - 1;
    MultipleMeans(o, Pow(5, t), 0);
    PowOfProduct(5, 2, t);
    PowAdd(2, j, t + 1);
    PowStep(2, t + 1);
    hide Pow;
    var q := o / Pow(5, t);
    d := q * Pow(2, j);
    MulSwap(q, Pow(2, j), Pow(5, t));
    FewerTwos(d, Pow(5, t), Pow(2, t), Pow(2, j), o);
  }

  // ----- The test is exact -----

  /** The boundary as a decimal of k digits after the point, over 10^exp10, is a multiple of 10^(exp10 - k). */
  lemma {:induction false} BoundaryOfLength(v: Fp, exp10: nat, d: int, k: nat)
    requires v.Valid() && !v.closer && v.e >= 0 && k <= exp10
    ensures BoundaryDecimal(Scale(v, exp10), d, k) <==> IsBoundary(v, d, exp10 - k)
    ensures Scale(v, exp10).den > 2 * (Pow(10, k) * Scale(v, exp10).upper) <==> Pow(10, exp10 - k) > Pow(2, v.e)
  {
    LargeScale(v, exp10);
    PowAdd(10, k, exp10 - k);
    hide Pow, Scale;
    var p, t, u, o := Pow(10, k), Pow(10, exp10 - k), Pow(2, v.e), 2 * v.f - 1;
    CancelLength(d, p, t, u, o, v.f);
    CompareLength(p, t, u);
  }

  lemma {:induction false} CancelLength(d: int, p: int, t: int, u: int, o: int, f: int)
    requires p > 0 && o == 2 * f - 1
    ensures d * (2 * (p * t)) == p * (2 * f * u - u) <==> d * 2 * t == o * u
  {
    Distribute(2 * f, 1, u);
    assert d * (2 * (p * t)) == d * 2 * t * p by {
      MulAssoc(d, 2, p * t);
      MulAssoc(d * 2, p, t);
      MulSwap(d * 2, p, t);
    }
    SameMultiple(d * 2 * t, o * u, p);
  }

  lemma {:induction false} CompareLength(p: int, t: int, u: int)
    requires p > 0
    ensures 2 * (p * t) > 2 * (p * u) <==> t > u
  {
    if t > u {
      MulMonotonic(u + 1, t, p);
      Distribute(u, 1, p);
    } else {
      MulMonotonic(t, u, p);
    }
  }

  /** A boundary that is the shortest answer ends before the last digit before the point. */
  lemma {:induction false} ShorterThanPoint(v: Fp, exp10: nat, d: int, k: nat)
    requires v.Valid() && !v.closer && v.e >= 0
    requires Scale(v, exp10).den > 2 * (Pow(10, k) * Scale(v, exp10).upper)
    ensures k < exp10
  {
    LargeScale(v, exp10);
    if k >= exp10 {
      PowMonotonic(10, exp10, k);
      hide Pow, Scale;
      MulGrows(Pow(10, k), Pow(2, v.e));
    }
  }

  /** The lower boundary is the shortest answer if and only if it ends in enough zeros. */
  lemma {:induction false} BoundaryIsShortestExactlyWhen(v: Fp, exp10: nat)
    requires v.Valid() && !v.closer && v.e >= 0
    ensures BoundaryIsShortest(Scale(v, exp10), true) <==> exists t: nat :: 0 < t <= exp10 && EndsInZeros(v, t)
  {
    var s := Scale(v, exp10);
    LargeScale(v, exp10);
    StartedValid(v, exp10);
    hide Pow, Scale, BoundaryDecimal, NothingElse;
    if BoundaryIsShortest(s, true) {
      var k: nat, d: int :| BoundaryDecimal(s, d, k) && NothingElse(s, k, true);
      NothingElseMeans(s, d, k);
      ShorterThanPoint(v, exp10, d, k);
      BoundaryOfLength(v, exp10, d, k);
      BoundaryDivides(v, d, exp10 - k);
      assert EndsInZeros(v, exp10 - k);
    }
    if t: nat :| 0 < t <= exp10 && EndsInZeros(v, t) {
      var d := BoundaryDivided(v, t);
      BoundaryOfLength(v, exp10, d, exp10 - t);
      NothingElseMeans(s, d, exp10 - t);
    }
  }
}
