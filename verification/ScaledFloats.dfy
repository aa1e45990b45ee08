/** A binary floating-point number and its boundaries as fractions of one denominator, over a power of ten. */
module ScaledFloats {
  import opened Positional
  import opened LimbArithmetic
  import opened ShortestDigits

  /** A binary floating-point number f * 2^e; `closer` says that its predecessor is closer than its successor. */
  datatype Fp = Fp(f: nat, e: int, closer: bool) {
    ghost predicate Valid() {
      1 <= f < 0x20_0000_0000_0000 && (closer ==> f == 0x10_0000_0000_0000)
    }
  }

  function Up(e: int): nat {
    if e > 0 then e else 0
  }

  function Shift(v: Fp): nat {
    if v.closer then 2 else 1
  }

  /** The number and its boundaries over 10^exp10, with one common denominator. */
  ghost function Scale(v: Fp, exp10: int): Scaled {
    var shift := Shift(v);
    var unit := Pow(2, Up(v.e)) * Pow(10, Up(-exp10));
    Scaled(v.f * Pow(2, shift) * unit,
           Pow(10, Up(exp10)) * Pow(2, Up(-v.e)) * Pow(2, shift),
           unit,
           if v.closer then 2 * unit else unit)
  }

  /** What the printer starts from: with a closer predecessor and e >= 0 the denominator misses a factor of two. */
  ghost function Started(v: Fp, exp10: int): Scaled {
    var s := Scale(v, exp10);
    if v.closer && v.e >= 0 then Scaled(s.num, Pow(10, Up(exp10)) * 2, s.lower, s.upper) else s
  }

  /** The lower boundary's limbs start no higher than the denominator's, so that hitting it exactly is seen. */
  predicate BoundarySeen(v: Fp, exp10: int) {
    v.e < 0 || exp10 < 0 || v.e / 32 <= exp10 / 32
  }

  /** Where the limbs of the lower boundary's gap, the numerator and the denominator start. */
  function LowerExp(v: Fp, exp10: int): nat {
    if v.e >= 0 then v.e / 32 else if exp10 < 0 then -exp10 / 32 else 0
  }

  function DenominatorExp(v: Fp, exp10: int): nat {
    Up(exp10) / 32 + if v.e >= 0 then 0 else (Shift(v) - v.e) / 32
  }

  /** The decimal exponent is one the number's upper boundary stays below the next power of ten of. */
  ghost predicate ExponentFits(v: Fp, exp10: int) {
    var s := Scale(v, exp10);
    s.num + s.upper < 10 * s.den
  }

  lemma {:induction false} PowersOfTwo()
    ensures Pow(2, 0) == 1 && Pow(2, 1) == 2 && Pow(2, 2) == 4 && Pow(10, 0) == 1
  {
  }

  /** With e >= 0 the decimal exponent cannot be negative. */
  lemma {:induction false} LargeExponent(v: Fp, exp10: int)
    requires v.Valid() && ExponentFits(v, exp10) && v.e >= 0
    ensures exp10 >= 0
  {
    hide Pow;
    PowersOfTwo();
    if exp10 < 0 {
      var two, ten := Pow(2, Shift(v)), Pow(10, -exp10);
      assert v.f * two * (Pow(2, v.e) * ten) < 10 * (1 * two);
      TenAtLeast(-exp10);
      MulGrows(ten, Pow(2, v.e));
      TooLarge(v.f, two, Pow(2, v.e) * ten, 1);
    }
  }

  lemma {:induction false} TenAtLeast(k: nat)
    requires k > 0
    ensures Pow(10, k) >= 10
  {
    assert Pow(10, 1) == 10;
    PowMonotonic(10, 1, k);
  }

  lemma {:induction false} ScaleLarge(v: Fp, exp10: int)
    requires v.Valid() && ExponentFits(v, exp10) && v.e >= 0
    ensures exp10 >= 0
    ensures var s := Started(v, exp10);
            && s.num == v.f * Pow(2, Shift(v)) * Pow(2, v.e)
            && s.lower == Pow(2, v.e)
            && s.upper == (if v.closer then Pow(2, v.e + 1) else Pow(2, v.e))
            && s.den == Pow(10, exp10) * Pow(2, 1)
  {
    LargeExponent(v, exp10);
    PowersOfTwo();
    assert Pow(2, v.e + 1) == 2 * Pow(2, v.e);
    hide Pow, ExponentFits;
  }

  /** With a negative decimal exponent, the power of two below is at least as long as the power of ten above. */
  lemma {:induction false} ScaleSmall(v: Fp, exp10: int)
    requires v.Valid() && ExponentFits(v, exp10) && v.e < 0 && exp10 < 0
    ensures var s := Started(v, exp10);
            && s.num == Pow(10, -exp10) * (v.f * Pow(2, Shift(v)))
            && s.lower == Pow(10, -exp10)
            && s.upper == (if v.closer then Pow(10, -exp10) * Pow(2, 1) else Pow(10, -exp10))
            && s.den == Pow(2, Shift(v) - v.e)
  {
    hide Pow;
    PowersOfTwo();
    PowAdd(2, -v.e, Shift(v));
    MulAssoc(v.f, Pow(2, Shift(v)), Pow(10, -exp10));
  }

  lemma {:induction false} SmallExponent(v: Fp, exp10: int)
    requires v.Valid() && ExponentFits(v, exp10) && v.e < 0 && exp10 < 0
    ensures -exp10 <= -v.e
  {
    PowersOfTwo();
    var t, two, k := Pow(10, -exp10), Pow(2, Shift(v)), -exp10;
    assert v.f * two * t < 10 * (Pow(2, -v.e) * two);
    assert t == 10 * Pow(10, k - 1);
    hide Scale, ExponentFits, Pow;
    if k > -v.e {
      PowLeft(2, 10, k - 1);
      PowMonotonic(2, -v.e, k - 1);
      TooLarge(v.f, two, t, Pow(2, -v.e));
    }
  }

  lemma {:induction false} TooLarge(f: nat, two: nat, t: nat, y: nat)
    requires f >= 1 && t >= 10 * y
    ensures f * two * t >= 10 * (y * two)
  {
    MulMonotonic(1, f, two);
    MulMonotonic(two, f * two, t);
    MulMonotonic(10 * y, t, two);
    MulAssoc(10, y, two);
  }

  lemma {:induction false} ScaleMiddle(v: Fp, exp10: int)
    requires v.Valid() && v.e < 0 && exp10 >= 0
    ensures var s := Started(v, exp10);
            && s.num == v.f * Pow(2, Shift(v))
            && s.lower == 1
            && s.upper == (if v.closer then 2 else 1)
            && s.den == Pow(10, exp10) * Pow(2, Shift(v) - v.e)
  {
    PowersOfTwo();
    PowAdd(2, -v.e, Shift(v));
    MulAssoc(Pow(10, exp10), Pow(2, -v.e), Pow(2, Shift(v)));
  }

  lemma {:induction false} StartedValid(v: Fp, exp10: int)
    requires v.Valid()
    ensures Started(v, exp10).Valid()
  {
    PowersOfTwo();
    var s := Started(v, exp10);
    MulMonotonic(2, v.f * Pow(2, Shift(v)), s.lower);
  }

  /** The lower boundary's limbs start above the denominator's exactly when hitting it goes unseen. */
  lemma {:induction false} ExpsDecide(v: Fp, exp10: int)
    requires v.Valid() && ExponentFits(v, exp10)
    ensures LowerExp(v, exp10) <= DenominatorExp(v, exp10) <==> BoundarySeen(v, exp10)
    ensures LowerExp(v, exp10) > DenominatorExp(v, exp10) ==> v.e > exp10 >= 0
  {
    if v.e >= 0 {
      LargeExponent(v, exp10);
    } else if exp10 < 0 {
      SmallExponent(v, exp10);
    }
  }
}
