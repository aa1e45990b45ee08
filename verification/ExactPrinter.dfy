/** The exact shortest-digit printer: it runs the digit loop on big integers. */
module ExactPrinter {
  import opened Positional
  import opened LimbArithmetic
  import opened BigIntegers
  import opened ShortestDigits
  import opened DigitText
  import opened ScaledFloats
  import opened BufferCapacity

  /** The four big integers as the digit loop finds them. */
  ghost predicate StartsFrom(v: Fp, exp10: int, numerator: Bigint, denominator: Bigint, lower: Bigint, upper: Bigint)
    reads numerator, denominator, lower, upper
  {
    var s := Started(v, exp10);
    && numerator.Value() == s.num && denominator.Value() == s.den && lower.Value() == s.lower
       && upper.Value() == s.upper
    && numerator.Normalised() && denominator.Normalised() && lower.Normalised() && upper.Normalised()
    && numerator.exp == lower.exp == LowerExp(v, exp10) <= upper.exp && denominator.exp == DenominatorExp(v, exp10)
  }

  predicate Apart(numerator: Bigint, denominator: Bigint, lower: Bigint, upperStore: Bigint) {
    && numerator != denominator && numerator != lower && numerator != upperStore
    && denominator != lower && denominator != upperStore && lower != upperStore
  }

  method SetUp(v: Fp, exp10: int, numerator: Bigint, denominator: Bigint, lower: Bigint, upperStore: Bigint)
    returns (upper: Bigint)
    requires v.Valid() && -0x4000_0000 < exp10 < 0x4000_0000 && ExponentFits(v, exp10)
    requires Apart(numerator, denominator, lower, upperStore)
    modifies numerator, denominator, lower, upperStore
    ensures upper == (if v.closer then upperStore else lower)
    ensures StartsFrom(v, exp10, numerator, denominator, lower, upper)
  {
    hide StartsFrom;
    if v.e >= 0 {
      upper := SetUpLarge(v, exp10, numerator, denominator, lower, upperStore);
    } else if exp10 < 0 {
      upper := SetUpSmall(v, exp10, numerator, denominator, lower, upperStore);
    } else {
      upper := SetUpMiddle(v, exp10, numerator, denominator, lower, upperStore);
    }
  }

  method SetUpLarge(v: Fp, exp10: int, numerator: Bigint, denominator: Bigint, lower: Bigint, upperStore: Bigint)
    returns (upper: Bigint)
    requires v.Valid() && exp10 < 0x4000_0000 && ExponentFits(v, exp10) && v.e >= 0
    requires Apart(numerator, denominator, lower, upperStore)
    modifies numerator, denominator, lower, upperStore
    ensures upper == (if v.closer then upperStore else lower)
    ensures StartsFrom(v, exp10, numerator, denominator, lower, upper)
  {
    hide Pow, Num, Started, ExponentFits;
    PowersOfTwo();
    ScaleLarge(v, exp10);
    upper := lower;
    numerator.AssignWord(v.f * Pow(2, Shift(v)));
    numerator.ShiftLeft(v.e);
    lower.AssignWord(1);
    lower.ShiftLeft(v.e);
    if Shift(v) != 1 {
      upperStore.AssignWord(1);
      upperStore.ShiftLeft(v.e + 1);
      upper := upperStore;
    }
    denominator.AssignPow10(exp10);
    denominator.ShiftLeft(1);
  }

  method SetUpSmall(v: Fp, exp10: int, numerator: Bigint, denominator: Bigint, lower: Bigint, upperStore: Bigint)
    returns (upper: Bigint)
    requires v.Valid() && -0x4000_0000 < exp10 < 0 && ExponentFits(v, exp10) && v.e < 0
    requires Apart(numerator, denominator, lower, upperStore)
    modifies numerator, denominator, lower, upperStore
    ensures upper == (if v.closer then upperStore else lower)
    ensures StartsFrom(v, exp10, numerator, denominator, lower, upper)
  {
    hide Pow, Num, Started, ExponentFits;
    PowersOfTwo();
    ScaleSmall(v, exp10);
    SmallExponent(v, exp10);
    upper := lower;
    numerator.AssignPow10(-exp10);
    lower.Assign(numerator);
    if Shift(v) != 1 {
      upperStore.Assign(numerator);
      upperStore.ShiftLeft(1);
      upper := upperStore;
    }
    numerator.Multiply64(v.f * Pow(2, Shift(v)));
    denominator.AssignWord(1);
    denominator.ShiftLeft(Shift(v) - v.e);
  }

  method SetUpMiddle(v: Fp, exp10: int, numerator: Bigint, denominator: Bigint, lower: Bigint, upperStore: Bigint)
    returns (upper: Bigint)
    requires v.Valid() && 0 <= exp10 < 0x4000_0000 && v.e < 0
    requires Apart(numerator, denominator, lower, upperStore)
    modifies numerator, denominator, lower, upperStore
    ensures upper == (if v.closer then upperStore else lower)
    ensures StartsFrom(v, exp10, numerator, denominator, lower, upper)
  {
    hide Pow, Num, Started;
    PowersOfTwo();
    ScaleMiddle(v, exp10);
    upper := lower;
    numerator.AssignWord(v.f * Pow(2, Shift(v)));
    denominator.AssignPow10(exp10);
    denominator.ShiftLeft(Shift(v) - v.e);
    lower.AssignWord(1);
    if Shift(v) != 1 {
      upperStore.AssignWord(2);
      upper := upperStore;
    }
  }

  // ----- The digit loop -----

  /** The state at the top of the loop, after the digits that make up d at scale p = 10^n. */
  ghost predicate LoopState(s: Scaled, p: nat, d: int, num: nat, low: nat, up: nat) {
    && num + 10 * d * s.den == p * s.num
    && low == p * s.lower
    && up == p * s.upper
  }

  /** The state after a digit q with remainder r was taken off. */
  lemma {:induction false} TakeDigit(s: Scaled, p: nat, d: int, num: nat, low: nat, up: nat, q: nat, r: nat)
    requires LoopState(s, p, d, num, low, up) && num == q * s.den + r
    ensures p * s.num == (10 * d + q) * s.den + r
    ensures low == p * s.lower && up == p * s.upper
  {
    Distribute(10 * d, q, s.den);
  }

  lemma {:induction false} NextState(s: Scaled, p: nat, d: int, r: nat)
    requires p * s.num == d * s.den + r
    ensures LoopState(s, 10 * p, d, r * 10, p * s.lower * 10, p * s.upper * 10)
  {
    MulAssoc(10, p, s.num);
    MulAssoc(10, d, s.den);
    MulAssoc(10, p, s.lower);
    MulAssoc(10, p, s.upper);
  }

  /** Room for one more digit: the digit will be at most 9, and 9 is not rounded up. */
  ghost predicate DigitFits(num: nat, up: nat, den: nat, highIn: bool) {
    num + up < 10 * den || (!highIn && num + up == 10 * den)
  }

  lemma {:induction false} DigitBound(num: nat, up: nat, den: nat, highIn: bool, q: nat, r: nat)
    requires num < 20 * den && num == q * den + r && r < den && up > 0
    ensures q < 20
    ensures DigitFits(num, up, den, highIn) ==> q <= 9 && (q == 9 ==> !HighSet(r, up, den, highIn))
    ensures !HighSet(r, up, den, highIn) ==> DigitFits(r * 10, up * 10, den, highIn)
  {
    if q >= 10 {
      MulMonotonic(10, q, den);
      if q >= 20 {
        MulMonotonic(20, q, den);
      }
    }
  }

  /** Before the first non-zero digit the remainder is the number itself, well above the lower boundary's gap. */
  lemma {:induction false} NoTieYet(s: Scaled, p: nat, d: int, r: nat)
    requires s.Valid() && p > 0 && p * s.num == d * s.den + r && d == 0
    ensures r > p * s.lower
  {
    Distribute(s.num, s.lower, p);
    MulMonotonic(1, s.num - s.lower, p);
  }

  /** A number with a larger power of two below it is not equal to the denominator. */
  lemma {:induction false} NotTheDenominator(v: Fp, exp10: int, p: nat, num: nat, low: nat, up: nat)
    requires v.Valid() && ExponentFits(v, exp10) && v.e > exp10 >= 0
    requires LoopState(Started(v, exp10), p, 0, num, low, up)
    ensures num != Started(v, exp10).den
  {
    ScaleLarge(v, exp10);
    PowersOfTwo();
    var k, j, h := Pow(2, exp10 + 1), Pow(2, v.e - exp10 - 1), Pow(2, Shift(v) - 1);
    assert Pow(2, Shift(v)) == 2 * h && k == 2 * Pow(2, exp10);
    PowAdd(2, exp10 + 1, v.e - exp10 - 1);
    PowOfProduct(5, 2, exp10);
    OddPower(exp10);
    EvenIsNotOdd(p, v.f, h, k, j, Pow(5, exp10), Pow(2, exp10));
  }

  lemma {:induction false} EvenIsNotOdd(p: int, f: int, h: int, k: int, j: int, x: int, t: int)
    requires k == 2 * t && t > 0 && x % 2 == 1
    ensures p * (f * (2 * h) * (k * j)) != x * t * 2
  {
    var y := p * f * h * j;
    PullOutTwo(p, f, h, k, j, x, t);
    SameMultiple(2 * y, x, k);
  }

  lemma {:induction false} PullOutTwo(p: int, f: int, h: int, k: int, j: int, x: int, t: int)
    ensures p * (f * (2 * h) * (k * j)) == 2 * (p * f * h * j) * k
    ensures x * t * 2 == x * (2 * t)
  {
  }

  lemma {:induction false} OddPower(n: nat)
    ensures Pow(5, n) % 2 == 1
  {
    if n > 0 {
      OddPower(n - 1);
    }
  }

  /** How the loop starts: nothing with one digit less than the first lies between the boundaries. */
  lemma {:induction false} LoopStart(v: Fp, exp10: int, lowIn: bool, highIn: bool)
    requires v.Valid() && ExponentFits(v, exp10)
    ensures var s := Started(v, exp10);
            && s.Valid()
            && LoopState(s, Pow(10, 0), NumberOf([]), s.num, s.lower, s.upper)
            && s.num < 20 * s.den && s.lower < 20 * s.den && s.upper < 20 * s.den
            && (!(v.closer && v.e >= 0) ==>
                  s == Scale(v, exp10) && NoneCoarser(s, Pow(10, 0), lowIn, highIn)
                      && DigitFits(s.num, s.upper, s.den, highIn))
  {
    PowersOfTwo();
    var s := Started(v, exp10);
    var two := Pow(2, Shift(v));
    StartedValid(v, exp10);
    if !(v.closer && v.e >= 0) {
      forall d: int
        ensures !Coarser(s, d, 1, lowIn, highIn)
      {
        if d <= 0 {
          MulMonotonic(10 * d, 0, s.den);
        } else {
          MulMonotonic(10, 10 * d, s.den);
        }
      }
    } else {
      assert Pow(10, Up(exp10)) * 1 * two == 2 * s.den;
    }
  }

  /** With the denominator halved, what comes out is near twice the number, outside its boundaries. */
  lemma {:induction false} DoubledMisses(v: Fp, exp10: int, d: int, p: nat, lowIn: bool, highIn: bool)
    requires v.Valid() && v.closer && v.e >= 0 && p > 0
    requires Within(Started(v, exp10), d, p, lowIn, highIn)
    ensures !Within(Scale(v, exp10), d, p, true, true)
  {
    PowersOfTwo();
    var s, t := Started(v, exp10), Scale(v, exp10);
    assert s.num == v.f * 4 * s.lower;
    MulMonotonic(5, v.f * 4, s.lower);
    assert t.den == 2 * s.den by {
      MulAssoc(Pow(10, Up(exp10)), 2, 2);
    }
    MissArithmetic(d, s.den, p, s.num, s.lower);
  }

  lemma {:induction false} MissArithmetic(d: int, den: int, p: int, num: int, u: int)
    requires p > 0 && u > 0 && num >= 5 * u && d * den - p * num >= -(p * u)
    ensures d * (2 * den) - p * num > p * (2 * u)
  {
    MulAssoc(2, d, den);
    MulMonotonic(5 * u, num, p);
    MulAssoc(5, u, p);
    MulGrows(p, u);
  }

  // ----- The text -----

  function Bump(data: seq<char>): seq<char>
    requires |data| > 0 && data[|data| - 1] < 'Z'
  {
    data[|data| - 1 := (data[|data| - 1] as int + 1) as char]
  }

  lemma {:induction false} AppendDigit(data: seq<char>, q: nat)
    requires q < 20
    ensures var r := data + [('0' as int + q) as char];
            && NumberOf(r) == 10 * NumberOf(data) + q
            && NumberOf(Bump(r)) == 10 * NumberOf(data) + q + 1
            && (AllDigits(data) && q <= 9 ==> AllDigits(r))
            && (AllDigits(data) && q <= 8 ==> AllDigits(Bump(r)))
            && (LaterDigits(data) && (q <= 9 || data == []) ==> LaterDigits(r))
            && (LaterDigits(data) && (q <= 8 || data == []) ==> LaterDigits(Bump(r)))
  {
    var r := data + [('0' as int + q) as char];
    assert r[..|r| - 1] == Bump(r)[..|r| - 1] == data;
  }

  /** All but the first character are digits; that one may stand for a number up to twenty. */
  ghost predicate LaterDigits(data: seq<char>) {
    && (forall i :: 1 <= i < |data| ==> '0' <= data[i] <= '9')
    && (|data| > 0 ==> '0' as int <= data[0] as int <= '0' as int + 20)
  }

  // ----- What the text printed so far is known to be -----

  /** Is the text the shortest decimal between the boundaries, nearest to the number among the shortest? */
  ghost predicate PrintsShortest(s: Scaled, data: seq<char>, lowIn: bool, highIn: bool) {
    && |data| > 0
    && AllDigits(data)
    && Shortest(s, NumberOf(data), Pow(10, |data| - 1), lowIn, highIn)
    && Nearest(s, NumberOf(data), Pow(10, |data| - 1), lowIn, highIn)
  }

  /**
   * The same where the number may have two digits before the point, which the loop writes as one character: no shorter
   * text has any.
   */
  ghost predicate PrintsShortestDoubled(s: Scaled, data: seq<char>, lowIn: bool, highIn: bool) {
    && |data| > 0
    && LaterDigits(data)
    && Within(s, NumberOf(data), Pow(10, |data| - 1), lowIn, highIn)
    && (|data| > 1 ==> NoneCoarser(s, Pow(10, |data| - 1), lowIn, highIn))
    && Nearest(s, NumberOf(data), Pow(10, |data| - 1), lowIn, highIn)
  }

  /**
   * The printed text: shortest for the number, except that with a closer predecessor and e >= 0 it is shortest for
   * twice the number, and that is outside the number's boundaries.
   */
  ghost predicate Printed(v: Fp, exp10: int, data: seq<char>) {
    && |data| > 0
    && var s, even := Scale(v, exp10), v.f % 2 == 0;
       if v.closer && v.e >= 0 then
         && !Within(s, NumberOf(data), Pow(10, |data| - 1), true, true)
         && PrintsShortestDoubled(Started(v, exp10), data, even && BoundarySeen(v, exp10), even)
       else PrintsShortest(s, data, even && BoundarySeen(v, exp10), even)
  }

  /** The text at the top of the loop, with `num` and `up` left to divide. */
  ghost predicate Progress(v: Fp, exp10: int, data: seq<char>, p: nat, d: int, num: nat, up: nat) {
    && p > 0 && p == Pow(10, |data|) && d == NumberOf(data)
    && LaterDigits(data) && (AllDigits(data) || (v.closer && v.e >= 0))
    && ((v.closer && v.e >= 0 && data == []) ||
        var s, even := Started(v, exp10), v.f % 2 == 0;
        NoneCoarser(s, p, even && BoundarySeen(v, exp10), even) && DigitFits(num, up, s.den, even))
  }

  /** One digit q with remainder r, and the two stopping flags. */
  ghost predicate Digit(v: Fp, exp10: int, p: nat, d: int, num: nat, up: nat, q: nat, r: nat, low: bool, high: bool) {
    var s, even := Started(v, exp10), v.f % 2 == 0;
    && num == q * s.den + r < 20 * s.den && r < s.den
    && p * s.num == (10 * d + q) * s.den + r
    && up == p * s.upper && up > 0
    && low == LowSet(r, p * s.lower, even && BoundarySeen(v, exp10))
    && high == HighSet(r, up, s.den, even)
  }

  lemma {:induction false} Finished(v: Fp, exp10: int, data: seq<char>, p: nat, d: int, num: nat, up: nat, q: nat,
                                    r: nat, low: bool, high: bool)
    requires v.Valid() && Progress(v, exp10, data, p, d, num, up) && Digit(v, exp10, p, d, num, up, q, r, low, high)
    requires low || high
    ensures q < 20
    ensures var text := data + [('0' as int + q) as char];
            Printed(v, exp10, if RoundsUp(low, high, r, Started(v, exp10).den, q % 2 != 0) then Bump(text) else text)
  {
    hide Pow, NumberOf, AllDigits, BoundarySeen, Nearest, Within, NoneCoarser, DigitFits, Started, Scale, HighSet,
            LowSet, LaterDigits;
    var s, even := Started(v, exp10), v.f % 2 == 0;
    var lowIn := even && BoundarySeen(v, exp10);
    StartedValid(v, exp10);
    DigitBound(num, up, s.den, even, q, r);
    AppendDigit(data, q);
    Parity(d, q);
    var d' := 10 * d + q;
    var result := if RoundsUp(low, high, r, s.den, q % 2 != 0) then d' + 1 else d';
    ChoiceIsNearest(s, d', p, r, lowIn, even);
    if v.closer && v.e >= 0 {
      DoubledMisses(v, exp10, result, p, lowIn, even);
    } else {
      StartedIsScale(v, exp10);
    }
  }

  lemma {:induction false} StartedIsScale(v: Fp, exp10: int)
    requires !(v.closer && v.e >= 0)
    ensures Started(v, exp10) == Scale(v, exp10)
  {
  }

  lemma {:induction false} Continued(v: Fp, exp10: int, data: seq<char>, p: nat, d: int, num: nat, up: nat, q: nat,
                                     r: nat)
    requires v.Valid() && Progress(v, exp10, data, p, d, num, up) && Digit(v, exp10, p, d, num, up, q, r, false, false)
    ensures q < 20
    ensures Progress(v, exp10, data + [('0' as int + q) as char], 10 * p, 10 * d + q, r * 10, up * 10)
  {
    hide Pow, NumberOf, AllDigits, LaterDigits, BoundarySeen, Within, NoneCoarser, DigitFits, Started, HighSet, LowSet;
    var s, even := Started(v, exp10), v.f % 2 == 0;
    StartedValid(v, exp10);
    DigitBound(num, up, s.den, even, q, r);
    NoneHere(s, 10 * d + q, p, r, even && BoundarySeen(v, exp10), even);
    LongerText(data, v.closer && v.e >= 0, p, q);
  }

  /** One more digit, above nine only where the number may have two digits before the point. */
  lemma {:induction false} LongerText(data: seq<char>, doubled: bool, p: nat, q: nat)
    requires p == Pow(10, |data|) && q < 20 && (q <= 9 || (doubled && data == []))
    requires LaterDigits(data) && (AllDigits(data) || doubled)
    ensures var text := data + [('0' as int + q) as char];
            && 10 * p == Pow(10, |text|) && NumberOf(text) == 10 * NumberOf(data) + q
            && LaterDigits(text) && (AllDigits(text) || doubled)
  {
    hide NumberOf, AllDigits, LaterDigits;
    AppendDigit(data, q);
  }

  lemma {:induction false} Parity(d: int, q: int)
    ensures (10 * d + q) % 2 == q % 2
  {
    var h, b := q / 2, q % 2;
    assert 10 * d + q == 2 * (5 * d + h) + b;
  }

  // ----- The loop on big integers -----

  /** The operands at the top of the loop. */
  ghost predicate Operands(v: Fp, exp10: int, numerator: Bigint, denominator: Bigint, lower: Bigint, upper: Bigint,
                           p: nat, d: int)
    reads numerator, denominator, lower, upper
  {
    var s := Started(v, exp10);
    && numerator != denominator && numerator != lower && numerator != upper && denominator != lower
       && denominator != upper
    && numerator.Normalised() && denominator.Normalised() && lower.Normalised() && upper.Normalised()
    && p > 0 && LoopState(s, p, d, numerator.Value(), lower.Value(), upper.Value())
    && denominator.Value() == s.den && numerator.Value() < 20 * s.den
    && lower.Value() < 20 * s.den && upper.Value() < 20 * s.den
    && lower.exp == LowerExp(v, exp10) <= upper.exp && denominator.exp == DenominatorExp(v, exp10)
    && (numerator.exp == Min(lower.exp, denominator.exp) || (numerator.exp == lower.exp && d == 0))
  }

  /** The operands after a digit was taken off, d now including it. */
  ghost predicate Taken(v: Fp, exp10: int, numerator: Bigint, denominator: Bigint, lower: Bigint, upper: Bigint, p: nat,
                        d: int)
    reads numerator, denominator, lower, upper
  {
    var s := Started(v, exp10);
    && numerator != denominator && numerator != lower && numerator != upper && denominator != lower
       && denominator != upper
    && denominator.Normalised() && lower.Normalised() && upper.Normalised()
    && (numerator.Normalised() || (numerator.bigits == [0] && numerator.exp <= denominator.exp))
    && p > 0 && p * s.num == d * s.den + numerator.Value() && numerator.Value() < s.den
    && denominator.Value() == s.den && lower.Value() == p * s.lower && upper.Value() == p * s.upper
    && lower.exp == LowerExp(v, exp10) <= upper.exp && denominator.exp == DenominatorExp(v, exp10)
    && (numerator.exp == Min(lower.exp, denominator.exp) || (numerator.exp == lower.exp && d == 0))
  }

  /** All four numbers fit their buffers, and would with zero limbs put below them. */
  ghost predicate AllFit(v: Fp, exp10: int, numerator: Bigint, denominator: Bigint, lower: Bigint, upper: Bigint)
    reads numerator, denominator, lower, upper
  {
    && HasRoom(numerator, Lowest(v, exp10)) && HasRoom(denominator, Lowest(v, exp10))
    && HasRoom(lower, Lowest(v, exp10)) && HasRoom(upper, Lowest(v, exp10))
  }

  /** So it is for every double at the top of every round of the digit loop. */
  lemma {:induction false} OperandsFit(v: Fp, exp10: int, numerator: Bigint, denominator: Bigint, lower: Bigint,
                                       upper: Bigint, p: nat, d: int)
    requires OfDouble(v, exp10) && Operands(v, exp10, numerator, denominator, lower, upper, p, d)
    ensures AllFit(v, exp10, numerator, denominator, lower, upper)
  {
    StartedValid(v, exp10);
    hide Num, Started, LoopState, LowerExp, DenominatorExp, HasRoom, OfDouble;
    NumberFits(v, exp10, numerator);
    NumberFits(v, exp10, denominator);
    NumberFits(v, exp10, lower);
    NumberFits(v, exp10, upper);
  }

  /** Takes one digit off. */
  method DivideOff(ghost v: Fp, ghost exp10: int, numerator: Bigint, denominator: Bigint, ghost lower: Bigint,
                   ghost upper: Bigint,
                   ghost p: nat, ghost d: int)
    returns (digit: nat)
    requires v.Valid() && ExponentFits(v, exp10)
    requires Operands(v, exp10, numerator, denominator, lower, upper, p, d)
    modifies numerator
    ensures Taken(v, exp10, numerator, denominator, lower, upper, p, 10 * d + digit)
    ensures old(numerator.Value()) == digit * Started(v, exp10).den + numerator.Value() < 20 * Started(v, exp10).den
  {
    hide Pow, Num, Started, ExponentFits, BoundarySeen, LowerExp, DenominatorExp;
    ExpsDecide(v, exp10);
    if lower.exp > denominator.exp && d == 0 {
      NotTheDenominator(v, exp10, p, numerator.Value(), lower.Value(), upper.Value());
    }
    digit := numerator.DivmodAssign(denominator);
    TakeDigit(Started(v, exp10), p, d, old(numerator.Value()), lower.Value(), upper.Value(), digit, numerator.Value());
  }

  /** Decides whether the digits so far, or the next number after them, lie between the boundaries. */
  method Flags(ghost v: Fp, ghost exp10: int, numerator: Bigint, denominator: Bigint, lower: Bigint, upper: Bigint,
               even: bool, ghost p: nat, ghost d: int)
    returns (low: bool, high: bool)
    requires v.Valid() && ExponentFits(v, exp10) && Taken(v, exp10, numerator, denominator, lower, upper, p, d)
    ensures low == LowSet(numerator.Value(), p * Started(v, exp10).lower, even && BoundarySeen(v, exp10))
    ensures high == HighSet(numerator.Value(), upper.Value(), denominator.Value(), even)
  {
    hide Pow, Num, Started, ExponentFits, BoundarySeen, LowerExp, DenominatorExp;
    ghost var s := Started(v, exp10);
    StartedValid(v, exp10);
    ExpsDecide(v, exp10);
    if d == 0 {
      NoTieYet(s, p, d, numerator.Value());
    }
    var c := Compare(numerator, lower);
    low := c < 0 || (even && c == 0);
    c := AddCompare(numerator, upper, denominator);
    high := c > 0 || (even && c == 0);
  }

  /** Settles the last digit: up, or down, or to the nearer one with ties to even. */
  method SettleLast(ghost v: Fp, ghost exp10: int, numerator: Bigint, denominator: Bigint, ghost lower: Bigint,
                    ghost upper: Bigint, ghost p: nat, ghost d: int, data: seq<char>, digit: nat, low: bool, high: bool)
    returns (r: seq<char>)
    requires low || high
    requires Taken(v, exp10, numerator, denominator, lower, upper, p, d)
    requires |data| > 0 && data[|data| - 1] < 'Z'
    ensures r == if RoundsUp(low, high, numerator.Value(), Started(v, exp10).den, digit % 2 != 0)
                 then Bump(data) else data
  {
    r := data;
    if !low {
      r := Bump(data);
    } else if high {
      var result := AddCompare(numerator, numerator, denominator);
      if result > 0 || (result == 0 && digit % 2 != 0) {
        r := Bump(data);
      }
    }
  }

  /** On to the next digit. */
  method TimesTen(ghost v: Fp, ghost exp10: int, numerator: Bigint, ghost denominator: Bigint, lower: Bigint,
                  upper: Bigint, ghost p: nat, ghost d: int)
    requires Taken(v, exp10, numerator, denominator, lower, upper, p, d) && numerator.Value() > 0
    requires lower.Value() <= denominator.Value() && upper.Value() <= denominator.Value()
    modifies numerator`bigits, lower`bigits, upper`bigits
    ensures Operands(v, exp10, numerator, denominator, lower, upper, 10 * p, d)
    ensures numerator.Value() == old(numerator.Value()) * 10 && upper.Value() == old(upper.Value()) * 10
    ensures lower.Value() == old(lower.Value()) * 10
  {
    ZeroNumber(numerator.exp);
    hide Pow, Num, Started, LowerExp, DenominatorExp;
    NextState(Started(v, exp10), p, d, numerator.Value());
    numerator.Multiply32(10);
    lower.Multiply32(10);
    if upper != lower {
      upper.Multiply32(10);
    }
  }

  lemma {:induction false} DigitTaken(v: Fp, exp10: int, numerator: Bigint, denominator: Bigint, lower: Bigint,
                                      upper: Bigint,
                   p: nat, d: int, num: nat, q: nat, low: bool, high: bool)
    requires v.Valid() && Taken(v, exp10, numerator, denominator, lower, upper, p, 10 * d + q)
    requires num == q * Started(v, exp10).den + numerator.Value() < 20 * Started(v, exp10).den
    requires low == LowSet(numerator.Value(), p * Started(v, exp10).lower, v.f % 2 == 0 && BoundarySeen(v, exp10))
    requires high == HighSet(numerator.Value(), upper.Value(), denominator.Value(), v.f % 2 == 0)
    ensures Digit(v, exp10, p, d, num, upper.Value(), q, numerator.Value(), low, high)
    ensures 0 < lower.Value() && (!low ==> lower.Value() <= numerator.Value())
    ensures numerator.Value() < Started(v, exp10).den
    ensures denominator.Value() == Started(v, exp10).den && (!high ==> upper.Value() <= denominator.Value())
  {
    StartedValid(v, exp10);
    hide Pow, Num, Started, BoundarySeen;
    MulGrows(p, Started(v, exp10).lower);
    MulGrows(p, Started(v, exp10).upper);
  }

  lemma {:induction false} OperandsDiffer(v: Fp, exp10: int, numerator: Bigint, denominator: Bigint, lower: Bigint,
                                          upper: Bigint, p: nat, d: int)
    requires Operands(v, exp10, numerator, denominator, lower, upper, p, d)
    ensures numerator != denominator && numerator != lower && numerator != upper && denominator != lower
    ensures denominator != upper
  {
  }

  /** The digit loop. */
  method PrintDigits(ghost v: Fp, ghost exp10: int, numerator: Bigint, denominator: Bigint, lower: Bigint,
                     upper: Bigint, even: bool)
    returns (data: seq<char>)
    requires v.Valid() && ExponentFits(v, exp10) && even == (v.f % 2 == 0)
    requires Operands(v, exp10, numerator, denominator, lower, upper, 1, 0)
    requires Progress(v, exp10, [], 1, 0, numerator.Value(), upper.Value())
    modifies numerator, lower, upper
    ensures Printed(v, exp10, data)
  {
    hide Pow, Num, Started, ExponentFits, BoundarySeen, Operands, Taken, Digit, Progress, Printed, Bigint.Value;
    hide OfDouble, AllFit;
    OperandsDiffer(v, exp10, numerator, denominator, lower, upper, 1, 0);
    if OfDouble(v, exp10) {
      OperandsFit(v, exp10, numerator, denominator, lower, upper, 1, 0);
    }
    data := [];
    ghost var p: nat, d := 1, 0;
    while true
      invariant Operands(v, exp10, numerator, denominator, lower, upper, p, d)
      invariant OfDouble(v, exp10) ==> AllFit(v, exp10, numerator, denominator, lower, upper)
      invariant Progress(v, exp10, data, p, d, numerator.Value(), upper.Value())
      decreases Started(v, exp10).den - lower.Value()
    {
      ghost var num, up := numerator.Value(), upper.Value();
      var digit := DivideOff(v, exp10, numerator, denominator, lower, upper, p, d);
      var low, high := Flags(v, exp10, numerator, denominator, lower, upper, even, p, 10 * d + digit);
      ghost var r := numerator.Value();
      DigitTaken(v, exp10, numerator, denominator, lower, upper, p, d, num, digit, low, high);
      if low || high {
        Finished(v, exp10, data, p, d, num, up, digit, r, low, high);
        data := data + [('0' as int + digit) as char];
        data := SettleLast(v, exp10, numerator, denominator, lower, upper, p, 10 * d + digit, data, digit, low, high);
        return;
      }
      Continued(v, exp10, data, p, d, num, up, digit, r);
      data := data + [('0' as int + digit) as char];
      TimesTen(v, exp10, numerator, denominator, lower, upper, p, 10 * d + digit);
      p, d := 10 * p, 10 * d + digit;
      if OfDouble(v, exp10) {
        OperandsFit(v, exp10, numerator, denominator, lower, upper, p, d);
      }
    }
  }

  /**
   * Prints v as the decimal NumberOf(data) * 10^resultExp10. The lower boundary counts as inside when the significand
   * is even and hitting the boundary is seen.
   */
  method FallbackFormat(v: Fp, exp10: int) returns (data: seq<char>, resultExp10: int)
    requires v.Valid() && -0x4000_0000 < exp10 < 0x4000_0000 && ExponentFits(v, exp10)
    ensures Printed(v, exp10, data) && resultExp10 == exp10 - (|data| - 1)
  {
    var numerator := new Bigint();
    var denominator := new Bigint();
    var lower := new Bigint();
    var upperStore := new Bigint();
    var upper := SetUp(v, exp10, numerator, denominator, lower, upperStore);
    LoopStart(v, exp10, v.f % 2 == 0 && BoundarySeen(v, exp10), v.f % 2 == 0);
    data := PrintDigits(v, exp10, numerator, denominator, lower, upper, v.f % 2 == 0);
    resultExp10 := exp10 - (|data| - 1);
  }
}
