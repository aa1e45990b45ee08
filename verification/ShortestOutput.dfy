/** What the printed text means as a decimal, and exactly when it is the shortest one. */
module ShortestOutput {
  import opened Basics
  import opened Positional
  import opened LimbArithmetic
  import opened ShortestDigits
  import opened DigitText
  import opened ScaledFloats
  import opened ExactPrinter
  import opened MissedBoundary

  function Even(v: Fp): bool {
    v.f % 2 == 0
  }

  // ----- The scaled integers stand for real numbers -----

  ghost function RealPow(b: nat, e: int): (r: real)
    requires b > 0
    ensures r > 0.0
  {
    if e >= 0 then Pow(b, e) as real else 1.0 / Pow(b, -e) as real
  }

  ghost function ValueOf(v: Fp): real {
    Times(RealPow(2, v.e), v.f)
  }

  /** Half the distance to the next smaller number, a quarter of the unit if that one is closer. */
  ghost function GapBelow(v: Fp): real {
    if v.closer then RealPow(2, v.e) / 4.0 else RealPow(2, v.e) / 2.0
  }

  ghost function GapAbove(v: Fp): real {
    RealPow(2, v.e) / 2.0
  }

  ghost function DecimalOf(d: int, exp10: int): real {
    Times(RealPow(10, exp10), d)
  }

  ghost predicate Between(v: Fp, x: real, lowIn: bool, highIn: bool) {
    && (ValueOf(v) - GapBelow(v) < x || (lowIn && ValueOf(v) - GapBelow(v) == x))
    && (x < ValueOf(v) + GapAbove(v) || (highIn && x == ValueOf(v) + GapAbove(v)))
  }

  /** RealPow is the quotient of the powers with non-negative exponents. */
  lemma {:induction false} RealPowQuotient(b: nat, e: int)
    requires b > 0
    ensures Times(RealPow(b, e), Pow(b, Up(-e))) == Pow(b, Up(e)) as real
  {
    Cancel(1.0, Pow(b, Up(-e)) as real);
  }

  lemma {:induction false} Cancel(x: real, y: real)
    requires y != 0.0
    ensures x / y * y == x
  {
  }

  lemma {:induction false} RealPowStep(n: nat, e: int)
    ensures Times(RealPow(10, e - n), Pow(10, n)) == RealPow(10, e)
  {
    hide Pow, RealPow, Times;
    RealPowQuotient(10, e);
    RealPowQuotient(10, e - n);
    PowersAdd(Up(e - n), n, Up(-e), Up(e), Up(n - e));
    PowQuotientArithmetic(RealPow(10, e - n), RealPow(10, e), Pow(10, n), Pow(10, Up(-e)), Pow(10, Up(e)),
                          Pow(10, Up(n - e)), Pow(10, Up(e - n)));
  }

  lemma {:induction false} PowersAdd(a: nat, b: nat, c: nat, d: nat, e: nat)
    requires a + b + c == d + e
    ensures Product(Product(Pow(10, a), Pow(10, b)), Pow(10, c)) == Product(Pow(10, d), Pow(10, e))
  {
    hide Pow, Product;
    PowersMultiply(a, b);
    PowersMultiply(a + b, c);
    PowersMultiply(d, e);
  }

  lemma {:induction false} PowersMultiply(a: nat, b: nat)
    ensures Product(Pow(10, a), Pow(10, b)) == Pow(10, a + b)
  {
    PowAdd(10, a, b);
  }

  lemma {:induction false} PowQuotientArithmetic(x: real, y: real, p: nat, ne: nat, pe: nat, nen: nat, pen: nat)
    requires ne > 0 && nen > 0
    requires Times(x, nen) == pen as real && Times(y, ne) == pe as real
    requires Product(Product(pen, p), ne) == Product(pe, nen)
    ensures Times(x, p) == y
  {
    var a, b := ne as real, nen as real;
    assert x * p as real * (a * b) == pen as real * p as real * a;
    assert y * (a * b) == pe as real * b;
    assert pen as real * p as real * a == (pen * p * ne) as real;
    assert pe as real * b == (pe * nen) as real;
    SameRealMultiple(x * p as real, y, a * b);
  }

  lemma {:induction false} SameRealMultiple(x: real, y: real, c: real)
    requires c != 0.0 && x * c == y * c
    ensures x == y
  {
    assert (x - y) * c == 0.0;
  }

  /** The scaled unit over the denominator is the unit of the number, over 2^shift. */
  lemma {:induction false} UnitMeans(v: Fp, exp10: int)
    ensures var s := Scale(v, exp10);
            Times(Times(RealPow(10, exp10), s.lower), Pow(2, Shift(v))) == Times(RealPow(2, v.e), s.den)
  {
    var s := Scale(v, exp10);
    var p2, n2, p10, n10, sh := Pow(2, Up(v.e)), Pow(2, Up(-v.e)), Pow(10, Up(exp10)), Pow(10, Up(-exp10)),
            Pow(2, Shift(v));
    var x, y := RealPow(10, exp10), RealPow(2, v.e);
    assert s.lower == Product(p2, n10) && s.den == Product(Product(p10, n2), sh);
    hide Pow, RealPow, Times, Product, Scale;
    RealPowQuotient(10, exp10);
    RealPowQuotient(2, v.e);
    UnitArithmetic(x, y, p2, n2, p10, n10, sh);
  }

  lemma {:induction false} UnitArithmetic(x: real, y: real, p2: nat, n2: nat, p10: nat, n10: nat, sh: nat)
    requires Times(x, n10) == p10 as real && Times(y, n2) == p2 as real
    ensures Times(Times(x, Product(p2, n10)), sh) == Times(y, Product(Product(p10, n2), sh))
  {
    RealOfProduct(p2, n10);
    RealOfProduct(p10, n2);
    RealOfProduct(p10 * n2, sh);
    Regroup(x, y, p2 as real, n2 as real, p10 as real, n10 as real, sh as real);
  }

  lemma {:induction false} RealOfProduct(a: int, b: int)
    ensures (a * b) as real == a as real * b as real
  {
  }

  lemma {:induction false} Regroup(x: real, y: real, p2: real, n2: real, p10: real, n10: real, sh: real)
    requires x * n10 == p10 && y * n2 == p2
    ensures x * (p2 * n10) * sh == y * (p10 * n2 * sh)
  {
    assert x * (p2 * n10) * sh == p2 * (x * n10) * sh;
    assert y * (p10 * n2 * sh) == (y * n2) * p10 * sh;
  }

  /** One unit of the scaled comparison, in real terms. */
  ghost function Step(v: Fp, exp10: int, n: nat): (r: real)
    requires v.Valid()
    ensures r > 0.0
  {
    StartedValid(v, exp10);
    RealPow(10, exp10 - n) / Scale(v, exp10).den as real
  }

  /** In real terms the scaled distances are those of the decimal and of the boundaries from the number. */
  lemma {:induction false} DistancesMean(v: Fp, exp10: int, d: int, n: nat)
    requires v.Valid()
    ensures var s, p, k := Scale(v, exp10), Pow(10, n), Step(v, exp10, n);
            && Times(k, d * s.den - p * s.num) == DecimalOf(d, exp10 - n) - ValueOf(v)
            && Times(k, p * s.lower) == GapBelow(v)
            && Times(k, p * s.upper) == GapAbove(v)
  {
    var s, p, k, sh := Scale(v, exp10), Pow(10, n), Step(v, exp10, n), Pow(2, Shift(v));
    StepTimesDenominator(v, exp10, n);
    ScaleShape(v, exp10);
    UnitMeans(v, exp10);
    RealPowStep(n, exp10);
    hide Pow, RealPow, Scale, Step, Times;
    StepArithmetic(k, RealPow(10, exp10 - n), RealPow(10, exp10), RealPow(2, v.e), s.den, p, s.lower, sh);
    DistanceArithmetic(k, RealPow(10, exp10 - n), RealPow(2, v.e), v.f, sh, s, p, d);
  }

  lemma {:induction false} StepTimesDenominator(v: Fp, exp10: int, n: nat)
    requires v.Valid()
    ensures Times(Step(v, exp10, n), Scale(v, exp10).den) == RealPow(10, exp10 - n)
  {
    ScaleShape(v, exp10);
    assert Step(v, exp10, n) == RealPow(10, exp10 - n) / Scale(v, exp10).den as real;
    hide RealPow, Scale, Pow, Step, Times;
    QuotientTimes(RealPow(10, exp10 - n), Scale(v, exp10).den);
  }

  lemma {:induction false} QuotientTimes(x: real, n: nat)
    requires n > 0
    ensures Times(x / n as real, n) == x
  {
    Cancel(x, n as real);
  }

  lemma {:induction false} ScaleShape(v: Fp, exp10: int)
    requires v.Valid()
    ensures var s, sh := Scale(v, exp10), Pow(2, Shift(v));
            && s.den > 0 && sh == (if v.closer then 4 else 2)
            && s.num == v.f * sh * s.lower && s.upper == (if sh == 4 then 2 * s.lower else s.lower)
  {
    PowersOfTwo();
  }

  lemma {:induction false} StepArithmetic(k: real, e': real, x: real, y: real, den: nat, p: nat, lower: nat, sh: nat)
    requires den > 0 && Times(k, den) == e' && Times(e', p) == x
    requires Times(Times(x, lower), sh) == Times(y, den)
    ensures Times(Times(k, p * lower), sh) == y
  {
    RealOfProduct(p, lower);
    var q, l, h, d := p as real, lower as real, sh as real, den as real;
    assert k * (q * l) * h * d == (k * d) * q * l * h;
    SameRealMultiple(k * (q * l) * h, y, d);
  }

  lemma {:induction false} DistanceArithmetic(k: real, e': real, y: real, f: nat, sh: nat, s: Scaled, p: nat, d: int)
    requires Times(k, s.den) == e' && Times(Times(k, p * s.lower), sh) == y
    requires sh == 2 || sh == 4
    requires s.num == f * sh * s.lower && s.upper == (if sh == 4 then 2 * s.lower else s.lower)
    ensures Times(k, d * s.den - p * s.num) == Times(e', d) - Times(y, f)
    ensures Times(k, p * s.lower) == (if sh == 4 then y / 4.0 else y / 2.0)
    ensures Times(k, p * s.upper) == y / 2.0
  {
    MulAssoc(2, p, s.lower);
    assert p * s.num == f * sh * (p * s.lower);
    var u := p * s.lower;
    RealOfProduct(d, s.den);
    RealOfProduct(f * sh, u);
    RealOfProduct(f, sh);
    assert k * (d as real * s.den as real) == d as real * (k * s.den as real);
    assert k * (f as real * sh as real * u as real) == f as real * (k * u as real * sh as real);
  }

  lemma {:induction false} ScaledOrder(k: real, a: int, b: int)
    requires k > 0.0
    ensures a < b <==> Times(k, a) < Times(k, b)
    ensures a == b <==> Times(k, a) == Times(k, b)
    ensures Times(k, -a) == -Times(k, a)
  {
    if a < b {
      assert k * (b - a) as real > 0.0;
    } else if a > b {
      assert k * (a - b) as real > 0.0;
    }
  }

  /** Lying between the scaled boundaries is lying between the real ones. */
  lemma {:induction false} WithinMeansBetween(v: Fp, exp10: int, d: int, n: nat, lowIn: bool, highIn: bool)
    requires v.Valid()
    ensures Within(Scale(v, exp10), d, Pow(10, n), lowIn, highIn) <==>
              Between(v, DecimalOf(d, exp10 - n), lowIn, highIn)
  {
    hide Scale, Step, Times, ValueOf, GapBelow, GapAbove, DecimalOf, Pow;
    var s, p, k := Scale(v, exp10), Pow(10, n), Step(v, exp10, n);
    DistancesMean(v, exp10, d, n);
    var x, lo, up := d * s.den - p * s.num, p * s.lower, p * s.upper;
    ScaledOrder(k, -x, lo);
    ScaledOrder(k, x, up);
    ScaledOrder(k, x, lo);
  }

  /** With the denominator halved, it is half the decimal that lies between the real boundaries. */
  lemma {:induction false} DoubledMeansBetween(v: Fp, exp10: int, d: int, n: nat, lowIn: bool, highIn: bool)
    requires v.Valid() && v.closer && v.e >= 0
    ensures Within(Started(v, exp10), d, Pow(10, n), lowIn, highIn) <==>
              Between(v, DecimalOf(d, exp10 - n) / 2.0, lowIn, highIn)
  {
    HalfTheDenominator(v, exp10);
    hide Scale, Started, Step, Times, ValueOf, GapBelow, GapAbove, DecimalOf, Pow;
    var s, t, p, k := Scale(v, exp10), Started(v, exp10), Pow(10, n), Step(v, exp10, n);
    DistancesMean(v, exp10, d, n);
    DistancesMean(v, exp10, 0, n);
    var x, lo, up := d * t.den - p * s.num, p * s.lower, p * s.upper;
    NoDecimal(exp10 - n);
    HalfDistance(k, d, s.den, t.den, p * s.num, DecimalOf(d, exp10 - n), ValueOf(v));
    ScaledOrder(k, -x, lo);
    ScaledOrder(k, x, up);
    ScaledOrder(k, x, lo);
  }

  lemma {:induction false} HalfTheDenominator(v: Fp, exp10: int)
    requires v.closer && v.e >= 0
    ensures Started(v, exp10) == Scale(v, exp10).(den := Started(v, exp10).den)
    ensures Scale(v, exp10).den == 2 * Started(v, exp10).den
  {
    PowersOfTwo();
    MulAssoc(Pow(10, Up(exp10)), 2, 2);
  }

  lemma {:induction false} NoDecimal(e: int)
    ensures DecimalOf(0, e) == 0.0
  {
  }

  lemma {:induction false} HalfDistance(k: real, d: int, den: int, half: int, num: int, decimal: real, value: real)
    requires den == 2 * half && Times(k, d * den - num) == decimal - value && Times(k, 0 * den - num) == -value
    ensures Times(k, d * half - num) == decimal / 2.0 - value
  {
    MulAssoc(2, d, half);
    var x, y := (d * den) as real, num as real;
    assert k * x - k * y == decimal - value && k * y == value;
    assert k * (x / 2.0) == k * x / 2.0;
  }

  // ----- Exactly when the printed text is the shortest decimal -----

  /**
   * The printer's answer is a shortest decimal between the boundaries, the boundaries counting for an even significand,
   * exactly when the denominator was not halved and the lower boundary is not missed: two tests on f, e and exp10.
   */
  lemma {:induction false} ShortestExactlyWhen(v: Fp, exp10: int, data: seq<char>)
    requires v.Valid() && ExponentFits(v, exp10) && Printed(v, exp10, data)
    ensures Shortest(Scale(v, exp10), NumberOf(data), Pow(10, |data| - 1), Even(v), Even(v)) <==>
            !(v.closer && v.e >= 0) && !BoundaryMissed(v, exp10)
  {
    StartedValid(v, exp10);
    hide Shortest, NumberOf, Pow;
    if !(v.closer && v.e >= 0) {
      if Even(v) && !BoundarySeen(v, exp10) {
        ShortestWithBoundary(Scale(v, exp10), NumberOf(data), |data| - 1, true);
        BoundaryIsShortestExactlyWhen(v, exp10);
      }
    } else {
      HalvedIsNotShortest(v, exp10, data);
    }
  }

  lemma {:induction false} HalvedIsNotShortest(v: Fp, exp10: int, data: seq<char>)
    requires v.closer && v.e >= 0 && Printed(v, exp10, data)
    ensures !Shortest(Scale(v, exp10), NumberOf(data), Pow(10, |data| - 1), Even(v), Even(v))
  {
  }

  /**
   * The lower boundary of 4503599643554688 * 2^32 is 922337207 * 2^21 * 10^10: with an even significand it is the
   * shortest answer, of 16 digits, and the printer misses it.
   */
  lemma {:induction false} ABoundaryIsMissed()
    ensures var v := Fp(4503599643554688, 32, false); v.Valid() && ExponentFits(v, 25) && BoundaryMissed(v, 25)
  {
    var v := Fp(4503599643554688, 32, false);
    TenToThe25();
    LargeScale(v, 25);
    Pow2At32();
    hide Pow, Scale;
    assert EndsInZeros(v, 10);
  }

  lemma {:induction false} TenToThe25()
    ensures Pow(5, 10) == 9765625 && Pow(10, 10) == 10000000000 && Pow(10, 25) == 10000000000000000000000000
  {
    assert Pow(5, 5) == 3125;
    PowAdd(5, 5, 5);
    assert Pow(10, 5) == 100000;
    PowAdd(10, 5, 5);
    PowAdd(10, 5, 10);
    PowAdd(10, 10, 15);
  }

  /**
   * 2^81 has a closer predecessor and a positive exponent: what is printed lies outside its boundaries, and half of it
   * between them.
   */
  method AHalvedDenominator() returns (data: seq<char>, resultExp10: int)
    ensures |data| > 0 && resultExp10 == 24 - (|data| - 1)
    ensures !Between(TwoTo81(), DecimalOf(NumberOf(data), resultExp10), true, true)
    ensures Between(TwoTo81(), DecimalOf(NumberOf(data), resultExp10) / 2.0, true, true)
  {
    var v := TwoTo81();
    TwoTo81Fits();
    hide NumberOf, DecimalOf, Between, ExponentFits;
    data, resultExp10 := FallbackFormat(v, 24);
    OutsideBoundaries(v, 24, data);
    HalfWithinBoundaries(v, 24, data);
  }

  function TwoTo81(): Fp {
    Fp(0x10_0000_0000_0000, 29, true)
  }

  lemma {:induction false} TwoTo81Fits()
    ensures TwoTo81().Valid() && ExponentFits(TwoTo81(), 24)
  {
    assert Pow(10, 6) == 1000000;
    PowAdd(10, 6, 6);
    PowAdd(10, 12, 12);
    assert Pow(2, 7) == 128 && Pow(2, 8) == 256;
    PowAdd(2, 7, 7);
    PowAdd(2, 14, 7);
    PowAdd(2, 21, 8);
    PowersOfTwo();
  }

  lemma {:induction false} OutsideBoundaries(v: Fp, exp10: int, data: seq<char>)
    requires v.Valid() && v.closer && v.e >= 0 && Printed(v, exp10, data)
    ensures !Between(v, DecimalOf(NumberOf(data), exp10 - (|data| - 1)), true, true)
  {
    hide Within, Between, DecimalOf, Scale;
    WithinMeansBetween(v, exp10, NumberOf(data), |data| - 1, true, true);
  }

  lemma {:induction false} HalfWithinBoundaries(v: Fp, exp10: int, data: seq<char>)
    requires v.Valid() && v.closer && v.e >= 0 && Printed(v, exp10, data)
    ensures Between(v, DecimalOf(NumberOf(data), exp10 - (|data| - 1)) / 2.0, true, true)
  {
    hide Within, Between, DecimalOf, Scale, Started, ValueOf, GapBelow, GapAbove;
    var even := v.f % 2 == 0;
    DoubledMeansBetween(v, exp10, NumberOf(data), |data| - 1, even && BoundarySeen(v, exp10), even);
    BoundariesCount(v, DecimalOf(NumberOf(data), exp10 - (|data| - 1)) / 2.0, even && BoundarySeen(v, exp10), even);
  }

  lemma {:induction false} BoundariesCount(v: Fp, x: real, lowIn: bool, highIn: bool)
    requires Between(v, x, lowIn, highIn)
    ensures Between(v, x, true, true)
  {
  }
}
