/** Digit generation for a given precision, on 64-bit integers. */
module Grisu {
  import opened Basics
  import opened Positional
  import opened LimbArithmetic
  import opened DigitText

  datatype Direction = Unknown | RoundUp | RoundDown

  datatype Outcome = More | Done | Failed

  /** Which way to round remainder / divisor when the remainder is known up to the error only. */
  function RoundDirection(divisor: nat, remainder: nat, error: nat): Direction
    requires remainder < divisor && error < divisor && error < divisor - error
  {
    if remainder <= divisor - remainder && error * 2 <= divisor - remainder * 2 then RoundDown
    else if remainder >= error && remainder - error >= divisor - (remainder - error) then RoundUp
    else Unknown
  }

  /** A direction is given exactly when it is right for every remainder within the error. */
  lemma {:induction false} DirectionIsRight(divisor: nat, remainder: nat, error: nat)
    requires remainder < divisor && error < divisor && error < divisor - error
    ensures var dir := RoundDirection(divisor, remainder, error);
      && (dir == RoundDown <==> forall x: real :: Near(x, remainder, error) ==> 2.0 * x <= divisor as real)
      && (dir == RoundUp <==> dir != RoundDown && forall x: real :: Near(x, remainder, error) ==>
          2.0 * x >= divisor as real)
  {
    var lo, hi := (remainder - error) as real, (remainder + error) as real;
    assert Near(lo, remainder, error) && Near(hi, remainder, error);
  }

  ghost predicate Near(x: real, center: int, error: nat) {
    (center - error) as real <= x <= (center + error) as real
  }

  function CountDigits(n: nat): (k: nat)
    requires 0 < n < 0x1_0000_0000
    ensures 1 <= k <= 10 && Pow(10, k - 1) <= n < Pow(10, k)
  {
    if n < 10 then 1
    else if n < 100 then 2
    else if n < 1000 then 3
    else if n < 10000 then 4
    else if n < 100000 then 5
    else if n < 1000000 then 6
    else if n < 10000000 then 7
    else if n < 100000000 then 8
    else if n < 1000000000 then 9
    else 10
  }

  // ----- The fixed-precision digit handler -----

  /** What the handler decides at the last digit; the error must be below half the divisor. */
  function Settle(divisor: nat, remainder: nat, error: nat): Direction
    requires remainder < divisor
  {
    if error >= divisor || error >= divisor - error then Unknown else RoundDirection(divisor, remainder, error)
  }

  function OutcomeOf(dir: Direction): Outcome {
    if dir == Unknown then Failed else Done
  }

  /** The length of a text of n digits, which rounding up to 10^n makes one longer. */
  ghost function Digits(n: nat, d: int): nat {
    if d == Pow(10, n) then n + 1 else n
  }

  class FixedHandler {
    var buf: seq<char>
    var precision: int
    const exp10: int
    const fixed: bool

    constructor (precision: int, exp10: int, fixed: bool)
      ensures buf == [] && this.precision == precision && this.exp10 == exp10 && this.fixed == fixed
    {
      buf, this.precision, this.exp10, this.fixed := [], precision, exp10, fixed;
    }

    /** With a fixed number of decimals the precision counts from the first digit; it may already be used up. */
    method OnStart(divisor: nat, remainder: nat, error: nat, exp: int) returns (result: Outcome)
      requires buf == [] && remainder < divisor && error < divisor && error < divisor - error
      modifies this
      ensures precision == old(precision) + if fixed then exp + exp10 else 0
      ensures !fixed || precision > 0 ==> result == More && buf == []
      ensures fixed && precision < 0 ==> result == Done && buf == []
      ensures fixed && precision == 0 ==>
        var dir := RoundDirection(divisor, remainder, error);
        result == OutcomeOf(dir) && buf == (if dir == Unknown then [] else if dir == RoundUp then ['1'] else ['0'])
    {
      if !fixed {
        return More;
      }
      precision := precision + exp + exp10;
      if precision > 0 {
        return More;
      }
      if precision < 0 {
        return Done;
      }
      var dir := RoundDirection(divisor, remainder, error);
      if dir == Unknown {
        return Failed;
      }
      buf := buf + [if dir == RoundUp then '1' else '0'];
      return Done;
    }

    /** Stores a digit; at the last one, rounds the digits so far if the direction is certain. */
    method OnDigit(digit: char, divisor: nat, remainder: nat, error: nat, integral: bool) returns (result: Outcome)
      requires AllDigits(buf) && '0' <= digit <= '9' && remainder < divisor
      requires integral ==> error == 1 && divisor > 2
      modifies this`buf
      ensures AllDigits(buf)
      ensures old(|buf|) + 1 < precision ==>
        result == More && |buf| == old(|buf|) + 1
            && NumberOf(buf) == 10 * NumberOf(old(buf)) + (digit as int - '0' as int)
      ensures old(|buf|) + 1 >= precision ==>
        var dir := Settle(divisor, remainder, error);
        && result == OutcomeOf(dir)
        && NumberOf(buf) == 10 * NumberOf(old(buf)) + (digit as int - '0' as int) + (if dir == RoundUp then 1 else 0)
        && |buf| == Digits(old(|buf|) + 1, NumberOf(buf))
    {
      NumberOfSnoc(buf, digit);
      buf := buf + [digit];
      DigitsBelow(buf);
      if |buf| < precision {
        return More;
      }
      if !integral {
        if error >= divisor || error >= divisor - error {
          return Failed;
        }
      }
      var dir := RoundDirection(divisor, remainder, error);
      if dir != RoundUp {
        return if dir == RoundDown then Done else Failed;
      }
      IncrementLast();
      return Done;
    }

    /** Adds one in the last place and carries. */
    method IncrementLast()
      requires |buf| > 0 && AllDigits(buf)
      modifies this`buf
      ensures AllDigits(buf) && NumberOf(buf) == old(NumberOf(buf)) + 1
      ensures |buf| == Digits(old(|buf|), NumberOf(buf))
    {
      hide Pow, NumberOf;
      var size := |buf|;
      ghost var start := buf;
      buf := buf[size - 1 := (buf[size - 1] as int + 1) as char];
      NumberOfBump(start, buf);
      var i := size - 1;
      while i > 0 && buf[i] > '9'
        invariant 0 <= i < size == |buf|
        invariant NumberOf(buf) == NumberOf(start) + 1
        invariant forall j :: 0 <= j < size && j != i ==> '0' <= buf[j] <= '9'
        invariant '0' <= buf[i] && buf[i] as int <= '9' as int + 1
        invariant buf[i] > '9' ==> forall j :: i < j < size ==> buf[j] == '0'
      {
        ghost var before := buf;
        buf := buf[i := '0'][i - 1 := (buf[i - 1] as int + 1) as char];
        NumberOfCarry(before, buf, i);
        i := i - 1;
      }
      if buf[0] > '9' {
        ghost var before := buf;
        buf := buf[0 := '1'] + ['0'];
        NumberOfZeros(before, buf);
        NumberOfTen(buf);
      } else {
        DigitsBelow(buf);
      }
    }
  }

  // ----- Digit generation -----

  /** d units are a nearest multiple of the unit to w * p, for every real w within one of f. */
  ghost predicate NearestForAll(f: nat, p: nat, unit: nat, d: int) {
    forall w: real :: Near(w, f, 1) ==> Within(w, p, unit, d)
  }

  ghost predicate Within(w: real, p: nat, unit: nat, d: int) {
    -(unit as real) <= 2.0 * (Times(w, p) - (d * unit) as real) <= unit as real
  }

  /** Being nearest for every real within the error is being nearest at both ends. */
  lemma {:induction false} EndsDecide(f: nat, p: nat, unit: nat, d: int)
    ensures NearestForAll(f, p, unit, d) <==>
              -(unit as int) <= 2 * (f * p - p - d * unit) && 2 * (f * p + p - d * unit) <= unit
  {
    var lo, hi := (f - 1) as real, (f + 1) as real;
    assert Near(lo, f, 1) && Near(hi, f, 1);
    var x: int := d * unit;
    TimesWhole(f - 1, p);
    TimesWhole(f + 1, p);
    Distribute(f, 1, p);
    hide Times;
    if -(unit as int) <= 2 * (f * p - p - x) && 2 * (f * p + p - x) <= unit {
      forall w: real | Near(w, f, 1)
        ensures Within(w, p, unit, d)
      {
        TimesMonotonic(lo, w, p);
        TimesMonotonic(w, hi, p);
      }
    } else {
      assert !Within(lo, p, unit, d) || !Within(hi, p, unit, d);
    }
  }

  lemma {:induction false} TimesWhole(a: int, p: nat)
    ensures Times(a as real, p) == (a * p) as real
  {
  }

  lemma {:induction false} TimesMonotonic(x: real, y: real, p: nat)
    requires x <= y
    ensures Times(x, p) <= Times(y, p)
  {
    assert (y - x) * p as real >= 0.0;
  }

  /** With the true error, the decision is sound, and certain exactly when some multiple is nearest for all. */
  lemma {:induction false} SettleIsRight(f: nat, p: nat, unit: nat, d: int, rem: nat)
    requires 0 < p && f * p == d * unit + rem && rem < unit && 2 * p != unit
    ensures var dir := Settle(unit, rem, p);
      && (dir != Unknown ==> NearestForAll(f, p, unit, d + if dir == RoundUp then 1 else 0))
      && (dir == Unknown ==> forall x: int :: !NearestForAll(f, p, unit, x))
  {
    var dir := Settle(unit, rem, p);
    Distribute(d, 1, unit);
    EndsDecide(f, p, unit, d);
    EndsDecide(f, p, unit, d + 1);
    if dir == Unknown {
      forall x: int
        ensures !NearestForAll(f, p, unit, x)
      {
        EndsDecide(f, p, unit, x);
        if x < d {
          MulMonotonic(x, d - 1, unit);
        } else if x > d + 1 {
          Distribute(d, 2, unit);
          MulMonotonic(d + 2, x, unit);
        }
      }
    }
  }

  /** An error that does not stay below half the unit rules out any multiple. */
  lemma {:induction false} TooUncertain(f: nat, p: nat, unit: nat, x: int)
    requires 2 * p > unit
    ensures !NearestForAll(f, p, unit, x)
  {
    EndsDecide(f, p, unit, x);
  }

  /** The remainder and the error after m decimals of the fraction, as 64-bit arithmetic leaves them. */
  ghost function WrappedError(m: nat): nat {
    Pow(10, m) % WORD
  }

  lemma {:induction false} ErrorStep(m: nat)
    ensures WrappedError(m) * 10 % WORD == WrappedError(m + 1)
  {
    var x := Pow(10, m);
    DivModEquation(x, WORD);
    var q, r := x / WORD, x % WORD;
    DivModEquation(r * 10, WORD);
    assert 10 * x == (10 * q + r * 10 / WORD) * WORD + r * 10 % WORD;
    DivModUnique(10 * x, WORD, 10 * q + r * 10 / WORD, r * 10 % WORD);
  }

  /**
   * Up to 19 decimals the error is exact; from 20 on the true error exceeds any unit; from 64 on nothing is left of it.
   */
  lemma {:induction false} ErrorSize(m: nat)
    ensures m <= 19 ==> WrappedError(m) == Pow(10, m)
    ensures m >= 20 ==> 2 * Pow(10, m) > WORD
    ensures m >= 64 ==> WrappedError(m) == 0
  {
    assert Pow(10, 5) == 100000;
    PowAdd(10, 5, 5);
    PowAdd(10, 10, 10);
    assert Pow(10, 20) == 10 * Pow(10, 19);
    if m <= 19 {
      PowMonotonic(10, m, 19);
    } else {
      PowMonotonic(10, 20, m);
    }
    if m >= 64 {
      PowOfProduct(5, 2, m);
      PowAdd(2, 64, m - 64);
      PowAdd(2, 32, 32);
      Pow2At32();
      var k := Pow(5, m) * Pow(2, m - 64);
      assert Pow(10, m) == k * WORD by {
        MulAssoc(Pow(5, m), WORD, Pow(2, m - 64));
        MulAssoc(Pow(5, m), Pow(2, m - 64), WORD);
      }
      DivModUnique(Pow(10, m), WORD, k, 0);
    }
  }

  lemma {:induction false} TwiceIsNoPowerOfTwo(m: nat, k: nat)
    requires m > 0
    ensures 2 * Pow(10, m) != Pow(2, k)
  {
    hide Pow;
    NotDivisibleBy5(k);
    PowStep(10, m);
    FiveDivides(Pow(10, m - 1));
  }

  lemma {:induction false} FiveDivides(x: int)
    ensures (2 * (10 * x)) % 5 == 0
  {
    assert 2 * (10 * x) == 5 * (4 * x);
  }

  lemma {:induction false} NotDivisibleBy5(k: nat)
    ensures Pow(2, k) % 5 != 0
  {
    if k > 0 {
      NotDivisibleBy5(k - 1);
    }
  }

  ghost function Integral(f: nat, e: int): nat
    requires e <= 0
  {
    f / Pow(2, -e)
  }

  // Division as named functions, so that proofs can leave it unopened.

  function Quotient(a: nat, b: nat): nat
    requires b > 0
  {
    a / b
  }

  function Remainder(a: nat, b: nat): nat
    requires b > 0
  {
    a % b
  }

  ghost predicate Scaled(f: nat, e: int) {
    -60 <= e <= -32 && f < WORD && 0 < Integral(f, e) < 0x1_0000_0000
  }

  /** How many digits the handler asks for; a fixed number of decimals is counted from the first digit. */
  ghost function Wanted(f: nat, e: int, precision: int, exp10: int, fixed: bool): int
    requires Scaled(f, e)
  {
    precision + if fixed then CountDigits(Integral(f, e)) + exp10 else 0
  }

  /**
   * d is the whole number of units in n, or one more where the remainder is past the middle by at least the error;
   * that or its being short of the middle by the error, which must be below half the unit, makes the answer `Done`.
   */
  ghost predicate RoundedOff(n: nat, unit: nat, error: nat, result: Outcome, d: int)
    requires unit > 0
  {
    var rem := n % unit;
    var below := 2 * error < unit && 2 * rem + 2 * error <= unit;
    var above := 2 * error < unit && rem >= error && 2 * (rem - error) >= unit;
    && d == n / unit + (if above && !below then 1 else 0)
    && result == (if above || below then Done else Failed)
  }

  lemma {:induction false} SettleRoundsOff(n: nat, unit: nat, error: nat, d: int, rem: nat)
    requires n == d * unit + rem && rem < unit
    ensures var dir := Settle(unit, rem, error);
            RoundedOff(n, unit, error, OutcomeOf(dir), d + if dir == RoundUp then 1 else 0)
  {
    DivModUnique(n, unit, d, rem);
  }

  /**
   * n digits were produced, the last one at place 10^exp of f * 2^e, and they read d: that is f * 2^e, scaled to units
   * of the last place, rounded with the 64-bit error. It is a certainly nearest number of that length, except that
   * from 20 decimals on the wrapped error lets through what is not certain.
   */
  ghost predicate Certified(f: nat, e: int, exp: int, result: Outcome, d: int)
    requires Scaled(f, e)
  {
    var m := Max(-exp, 0);
    var p, unit := Pow(10, m), Pow(10, Max(exp, 0)) * Pow(2, -e);
    unit > 0 && RoundedOff(f * p, unit, p % WORD, result, d) && Judged(f, m, p, unit, result, d)
  }

  /** What the verdict is worth after m decimals, where p = 10^m. */
  ghost predicate Judged(f: nat, m: nat, p: nat, unit: nat, result: Outcome, d: int) {
    && (result == Done ==> (NearestForAll(f, p, unit, d) <==> m <= 19))
    && (m <= 19 && result == Failed ==> forall x: int :: !NearestForAll(f, p, unit, x))
    && (m >= 64 ==> result == Done)
  }

  /** The digits so far read d, down to place 10^exp; the rest of the number is still to come. */
  ghost predicate IntegralState(f: nat, one: nat, exp: nat, d: int, integral: nat, fractional: nat) {
    && integral < Pow(10, exp) && fractional < one && d >= 0
    && (exp > 0 ==> Pow(10, exp - 1) * one <= f)
    && f == d * (Pow(10, exp) * one) + (integral * one + fractional)
  }

  /** The same once m decimals were produced. */
  ghost predicate FractionalState(f: nat, one: nat, m: nat, d: int, fractional: nat) {
    fractional < one && f * Pow(10, m) == d * one + fractional
  }

  lemma {:induction false} IntegralStep(f: nat, one: nat, exp: nat, d: int, integral: nat, fractional: nat)
    requires exp > 0 && IntegralState(f, one, exp, d, integral, fractional)
    ensures var q := Pow(10, exp - 1);
      && Quotient(integral, q) <= 9
      && Remainder(integral, q) * one + fractional < q * one
      && f == (10 * d + Quotient(integral, q)) * (q * one) + (Remainder(integral, q) * one + fractional)
      && q * one <= f
      && IntegralState(f, one, exp - 1, 10 * d + Quotient(integral, q), Remainder(integral, q), fractional)
  {
    var q := Pow(10, exp - 1);
    assert Pow(10, exp) == 10 * q;
    DivModEquation(integral, q);
    var a, r := Quotient(integral, q), Remainder(integral, q);
    if a >= 10 {
      MulMonotonic(10, a, q);
    }
    MulMonotonic(r + 1, q, one);
    Distribute(r, 1, one);
    StepArithmetic(d, a, q, r, one);
    if exp > 1 {
      MulMonotonic(Pow(10, exp - 2), q, one);
    }
  }

  lemma {:induction false} StepArithmetic(d: int, a: int, q: int, r: int, one: int)
    ensures d * (10 * q * one) + (a * q + r) * one == (10 * d + a) * (q * one) + r * one
  {
  }

  lemma {:induction false} FractionalStep(f: nat, one: nat, m: nat, d: int, fractional: nat)
    requires FractionalState(f, one, m, d, fractional)
    ensures Quotient(fractional * 10, one) <= 9
    ensures FractionalState(f, one, m + 1, 10 * d + Quotient(fractional * 10, one), Remainder(fractional * 10, one))
  {
    var a := Quotient(fractional * 10, one);
    DivModEquation(fractional * 10, one);
    if a >= 10 {
      MulMonotonic(10, a, one);
    }
    Distribute(10 * d, a, one);
    MulAssoc(10, d, one);
    MulAssoc(f, 10, Pow(10, m));
  }

  /** The verdict at a digit of the integral part. */
  lemma {:induction false} CertifyIntegral(f: nat, e: int, exp: nat, d: int, rem: nat)
    requires Scaled(f, e)
    requires var unit := Pow(10, exp) * Pow(2, -e); f == d * unit + rem && rem < unit
    ensures var unit := Pow(10, exp) * Pow(2, -e); var dir := Settle(unit, rem, 1);
            unit > 2 && Certified(f, e, exp, OutcomeOf(dir), d + if dir == RoundUp then 1 else 0)
  {
    hide RoundedOff, NearestForAll, Settle, Integral;
    PowersOfTen();
    OneIsSmall(e);
    hide Pow;
    MulGrows(Pow(2, -e), Pow(10, exp));
    var unit := Pow(10, exp) * Pow(2, -e);
    SettleIsRight(f, 1, unit, d, rem);
    SettleRoundsOff(f * 1, unit, 1, d, rem);
  }

  lemma {:induction false} PowersOfTen()
    ensures Pow(10, 0) == 1 && 1 % WORD == 1
  {
  }

  /** The verdict at the m-th decimal. */
  lemma {:induction false} CertifyFractional(f: nat, e: int, m: int, d: int, rem: nat)
    requires Scaled(f, e) && m > 0 && FractionalState(f, Pow(2, -e), m, d, rem)
    ensures var dir := Settle(Pow(2, -e), rem, WrappedError(m));
            Certified(f, e, -m, OutcomeOf(dir), d + if dir == RoundUp then 1 else 0)
  {
    hide RoundedOff, Settle, Integral, Judged;
    PowersOfTen();
    OneIsSmall(e);
    hide Pow;
    SettleRoundsOff(f * Pow(10, m), Pow(2, -e), WrappedError(m), d, rem);
    JudgeFractional(f, e, m, d, rem);
  }

  lemma {:induction false} JudgeFractional(f: nat, e: int, m: int, d: int, rem: nat)
    requires Scaled(f, e) && m > 0 && FractionalState(f, Pow(2, -e), m, d, rem)
    ensures var dir := Settle(Pow(2, -e), rem, WrappedError(m));
            Judged(f, m, Pow(10, m), Pow(2, -e), OutcomeOf(dir), d + if dir == RoundUp then 1 else 0)
  {
    var one, dir := Pow(2, -e), Settle(Pow(2, -e), rem, WrappedError(m));
    OneIsSmall(e);
    ErrorSize(m);
    TwiceIsNoPowerOfTwo(m, -e);
    if m >= 64 {
      FractionUsedUp(f, e, m, d, rem);
    }
    hide Pow, NearestForAll, Scaled, WrappedError;
    if m <= 19 {
      SettleIsRight(f, Pow(10, m), one, d, rem);
    } else {
      TooUncertain(f, Pow(10, m), one, d + if dir == RoundUp then 1 else 0);
    }
  }

  lemma {:induction false} OneIsSmall(e: int)
    requires -60 <= e <= -32
    ensures BASE <= Pow(2, -e) && 10 * Pow(2, -e) <= WORD
  {
    PowMonotonic(2, 32, -e);
    Pow2At32();
    PowMonotonic(2, -e, 60);
    PowAdd(2, 32, 32);
    PowAdd(2, 60, 4);
    assert Pow(2, 4) == 16;
  }

  /** After 60 decimals nothing is left of the fraction. */
  lemma {:induction false} FractionUsedUp(f: nat, e: int, m: nat, d: int, rem: nat)
    requires -60 <= e <= 0 && m >= 60 && FractionalState(f, Pow(2, -e), m, d, rem)
    ensures rem == 0
  {
    PowOfProduct(5, 2, m);
    PowAdd(2, -e, m + e);
    var k := f * (Pow(5, m) * Pow(2, m + e));
    var one := Pow(2, -e);
    assert f * Pow(10, m) == k * one by {
      MulAssoc(Pow(5, m), one, Pow(2, m + e));
      MulAssoc(Pow(5, m), Pow(2, m + e), one);
      MulAssoc(f, Pow(5, m) * Pow(2, m + e), one);
    }
    DivModUnique(k * one, one, k, 0);
    DivModUnique(k * one, one, d, rem);
  }

  ghost function Unit(e: int, exp: nat): nat
    requires e <= 0
  {
    Pow(10, exp) * Pow(2, -e)
  }

  lemma {:induction false} IntegralVerdict(f: nat, e: int, exp: nat, d: int, divisor: nat, remainder: nat)
    requires Scaled(f, e) && divisor == Unit(e, exp) && f == d * divisor + remainder && remainder < divisor
    ensures 2 < divisor
    ensures var dir := Settle(divisor, remainder, 1);
            Certified(f, e, exp, OutcomeOf(dir), d + if dir == RoundUp then 1 else 0)
  {
    CertifyIntegral(f, e, exp, d, remainder);
  }

  lemma {:induction false} ScaledIsWord(f: nat, e: int)
    requires Scaled(f, e)
    ensures f < WORD
  {
  }

  /** One division of the integral part, with what the handler is told about it. */
  method NextIntegralDigit(ghost f: nat, ghost e: int, one: nat, exp: nat, ghost d: int, integral: nat, fractional: nat)
    returns (digit: nat, rest: nat, divisor: nat, remainder: nat)
    requires Scaled(f, e) && one == Pow(2, -e) && exp > 0 && IntegralState(f, one, exp, d, integral, fractional)
    ensures digit <= 9 && IntegralState(f, one, exp - 1, 10 * d + digit, rest, fractional)
    ensures 2 < divisor && remainder < divisor < WORD
    ensures var dir := Settle(divisor, remainder, 1);
            Certified(f, e, exp - 1, OutcomeOf(dir), 10 * d + digit + if dir == RoundUp then 1 else 0)
  {
    hide Quotient, Remainder, Pow, IntegralState, Certified, Settle, Scaled;
    IntegralStep(f, one, exp, d, integral, fractional);
    ScaledIsWord(f, e);
    var power := Pow(10, exp - 1);
    digit, rest := Quotient(integral, power), Remainder(integral, power);
    divisor, remainder := power * one, rest * one + fractional;
    IntegralVerdict(f, e, exp - 1, 10 * d + digit, divisor, remainder);
  }

  /** One decimal; the error grows with it, modulo 2^64. */
  method NextDecimal(ghost f: nat, ghost e: int, one: nat, ghost m: nat, ghost d: int, fractional: nat, error: nat)
    returns (digit: nat, rest: nat, newError: nat)
    requires Scaled(f, e) && one == Pow(2, -e) && FractionalState(f, one, m, d, fractional) && error == WrappedError(m)
    ensures digit <= 9 && rest < one && FractionalState(f, one, m + 1, 10 * d + digit, rest)
    ensures newError == WrappedError(m + 1)
    ensures var dir := Settle(one, rest, newError);
            Certified(f, e, -(m as int + 1), OutcomeOf(dir), 10 * d + digit + if dir == RoundUp then 1 else 0)
  {
    OneIsSmall(e);
    FractionalStep(f, one, m, d, fractional);
    ErrorStep(m);
    var scaled := fractional * 10;
    assert scaled < WORD;
    newError := error * 10 % WORD;
    digit, rest := Quotient(scaled, one), Remainder(scaled, one);
    CertifyFractional(f, e, m + 1, 10 * d + digit, rest);
  }

  /** Digits of the integral part, from the top; `More` when the handler wants decimals as well. */
  method IntegralDigits(f: nat, e: int, k: nat, start: nat, fractional: nat, handler: FixedHandler)
    returns (result: Outcome, exp: int)
    requires Scaled(f, e) && k > 0 && handler.buf == []
    requires IntegralState(f, Pow(2, -e), k, 0, start, fractional)
    modifies handler`buf
    ensures AllDigits(handler.buf)
    ensures var n := Max(handler.precision, 1);
      if k < n then
        result == More && exp == 0 && |handler.buf| == k
            && FractionalState(f, Pow(2, -e), 0, NumberOf(handler.buf), fractional)
      else
        && result != More && exp == k - n && Certified(f, e, exp, result, NumberOf(handler.buf))
        && |handler.buf| == Digits(n, NumberOf(handler.buf))
  {
    assert e <= 0;
    hide Pow, NumberOf, Certified, NearestForAll, Settle, IntegralState, FractionalState, Scaled, Integral;
    var one: nat, integral: nat := Pow(2, -e), start;
    exp, result := k, More;
    NoDigits();
    while exp > 0
      invariant 0 <= exp <= k && |handler.buf| == k - exp && AllDigits(handler.buf) && result == More
      invariant |handler.buf| < Max(handler.precision, 1)
      invariant IntegralState(f, one, exp, NumberOf(handler.buf), integral, fractional)
    {
      ghost var d := NumberOf(handler.buf);
      var digit, rest, divisor, remainder := NextIntegralDigit(f, e, one, exp, d, integral, fractional);
      integral, exp := rest, exp - 1;
      result := handler.OnDigit(('0' as int + digit) as char, divisor, remainder, 1, true);
      if result != More {
        return;
      }
    }
    FractionalStart(f, one, NumberOf(handler.buf), integral, fractional);
  }

  /** Decimals, after the k digits of the integral part. */
  method FractionalDigits(f: nat, e: int, k: nat, start: nat, handler: FixedHandler) returns (result: Outcome, exp: int)
    requires Scaled(f, e) && |handler.buf| == k < handler.precision && AllDigits(handler.buf)
    requires FractionalState(f, Pow(2, -e), 0, NumberOf(handler.buf), start)
    modifies handler`buf
    ensures result != More && AllDigits(handler.buf)
    ensures exp == k - handler.precision && Certified(f, e, exp, result, NumberOf(handler.buf))
    ensures |handler.buf| == Digits(handler.precision, NumberOf(handler.buf))
  {
    assert WrappedError(0) == 1 && e <= 0;
    OneIsPositive(e);
    hide Pow, NumberOf, Certified, NearestForAll, Settle, IntegralState, FractionalState, Scaled, Integral,
            WrappedError;
    var one: nat, fractional: nat, error: nat := Pow(2, -e), start, 1;
    ghost var m := 0;
    exp := 0;
    while true
      invariant exp == -m && m >= 0 && |handler.buf| == k + m < handler.precision && AllDigits(handler.buf)
      invariant error == WrappedError(m)
      invariant FractionalState(f, one, m, NumberOf(handler.buf), fractional)
      decreases handler.precision - |handler.buf|
    {
      ghost var d := NumberOf(handler.buf);
      var digit;
      digit, fractional, error := NextDecimal(f, e, one, m, d, fractional, error);
      exp, m := exp - 1, m + 1;
      result := handler.OnDigit(('0' as int + digit) as char, one, fractional, error, false);
      if result != More {
        return;
      }
    }
  }

  lemma {:induction false} NoDigits()
    ensures NumberOf([]) == 0
  {
  }

  lemma {:induction false} OneIsPositive(e: int)
    requires e <= 0
    ensures Pow(2, -e) > 0
  {
  }

  /** What the handler answers when no digit is wanted: it compares tenths of f and of the leading power of ten. */
  ghost function StartVerdict(f: nat, e: int): Outcome
    requires Scaled(f, e)
  {
    var k := CountDigits(Integral(f, e));
    CertifyStart(f, e, k);
    OutcomeOf(RoundDirection(Pow(10, k - 1) * Pow(2, -e), f / 10, 10))
  }

  /**
   * Generates digits of f * 2^e until the handler has enough.
   */
  method GrisuGenDigits(f: nat, e: int, handler: FixedHandler) returns (result: Outcome, exp: int)
    requires Scaled(f, e) && handler.buf == []
    modifies handler
    ensures result != More && AllDigits(handler.buf)
    ensures var k, n := CountDigits(Integral(f, e)), Wanted(f, e, old(handler.precision), handler.exp10, handler.fixed);
      if handler.fixed && n < 0 then result == Done && handler.buf == [] && exp == k
      else if handler.fixed && n == 0 then
        && exp == k && result == StartVerdict(f, e) && (result == Failed ==> handler.buf == [])
        && (result == Done ==>
              |handler.buf| == 1 && NearestForAll(f, 1, Pow(10, k) * Pow(2, -e), NumberOf(handler.buf)))
      else
        && exp == k - Max(n, 1) && Certified(f, e, exp, result, NumberOf(handler.buf))
        && |handler.buf| == Digits(Max(n, 1), NumberOf(handler.buf))
  {
    var one := Pow(2, -e);
    var integral, fractional := f / one, f % one;
    exp := CountDigits(integral);
    CertifyStart(f, e, exp);
    IntegralStart(f, one, exp);
    assert StartVerdict(f, e) == OutcomeOf(RoundDirection(Pow(10, exp - 1) * one, f / 10, 10));
    hide Pow, NumberOf, Certified, NearestForAll, IntegralState, FractionalState, StartVerdict;
    result := handler.OnStart(Pow(10, exp - 1) * one, f / 10, 1 * 10, exp);
    if result != More {
      return;
    }
    var k := exp;
    result, exp := IntegralDigits(f, e, k, integral, fractional, handler);
    if result != More {
      return;
    }
    result, exp := FractionalDigits(f, e, k, fractional, handler);
  }

  /** At the start the divisor is a 64-bit number, above a tenth of f and well above the error. */
  lemma {:induction false} StartFits(f: nat, one: nat, k: nat)
    requires one >= BASE && k >= 1 && Pow(10, k - 1) <= f / one < Pow(10, k)
    ensures BASE <= Pow(10, k - 1) * one <= f && f / 10 < Pow(10, k - 1) * one && f < Pow(10, k) * one
  {
    DivModEquation(f, one);
    MulMonotonic(Pow(10, k - 1), f / one, one);
    MulMonotonic(f / one + 1, Pow(10, k), one);
    Distribute(f / one, 1, one);
    MulAssoc(10, Pow(10, k - 1), one);
    MulMonotonic(1, Pow(10, k - 1), one);
  }

  /** Rounding to no digit at all: the handler compares tenths, with an error a hundred times too large. */
  lemma {:induction false} CertifyStart(f: nat, e: int, k: nat)
    requires Scaled(f, e) && k == CountDigits(Integral(f, e))
    ensures var divisor := Pow(10, k - 1) * Pow(2, -e);
      && BASE <= divisor && f / 10 < divisor
      && var dir := RoundDirection(divisor, f / 10, 10);
         && (dir == RoundUp ==> NearestForAll(f, 1, Pow(10, k) * Pow(2, -e), NumberOf(['1'])))
         && (dir == RoundDown ==> NearestForAll(f, 1, Pow(10, k) * Pow(2, -e), NumberOf(['0'])))
  {
    var one := Pow(2, -e);
    OneIsSmall(e);
    StartFits(f, one, k);
    MulAssoc(10, Pow(10, k - 1), one);
    NumberOfSnoc([], '1');
    NumberOfSnoc([], '0');
    assert [] + ['1'] == ['1'] && [] + ['0'] == ['0'];
    EndsDecide(f, 1, Pow(10, k) * one, 1);
    EndsDecide(f, 1, Pow(10, k) * one, 0);
  }

  lemma {:induction false} IntegralStart(f: nat, one: nat, k: nat)
    requires one > 0 && k > 0 && Pow(10, k - 1) <= f / one < Pow(10, k)
    ensures IntegralState(f, one, k, 0, f / one, f % one)
  {
    DivModEquation(f, one);
    MulMonotonic(Pow(10, k - 1), f / one, one);
  }

  lemma {:induction false} FractionalStart(f: nat, one: nat, d: int, integral: nat, fractional: nat)
    requires IntegralState(f, one, 0, d, integral, fractional)
    ensures FractionalState(f, one, 0, d, fractional)
  {
  }

  // ----- Rounding to no digit at all: when the handler gives up too early -----

  /** The leading power of ten, and the number it is compared with, in units of the last place. */
  ghost function Tenth(f: nat, e: int): nat
    requires Scaled(f, e)
  {
    Pow(10, CountDigits(Integral(f, e)) - 1) * Pow(2, -e)
  }

  /** Some multiple of the power of ten above is nearest for every real within the error, just outside the middle. */
  lemma {:induction false} CertainExactlyWhen(f: nat, e: int)
    requires Scaled(f, e)
    ensures (exists x: int :: NearestForAll(f, 1, 10 * Tenth(f, e), x)) <==>
            2 * f + 2 <= 10 * Tenth(f, e) || 2 * f >= 10 * Tenth(f, e) + 2
  {
    var unit := 10 * Tenth(f, e);
    OneIsSmall(e);
    StartFits(f, Pow(2, -e), CountDigits(Integral(f, e)));
    assert f < unit;
    hide Pow, NearestForAll, Tenth;
    EndsDecide(f, 1, unit, 0);
    EndsDecide(f, 1, unit, 1);
    if x: int :| NearestForAll(f, 1, unit, x) {
      EndsDecide(f, 1, unit, x);
      if x < 0 {
        MulMonotonic(x, -1, unit);
      } else if x > 1 {
        MulMonotonic(2, x, unit);
      }
    }
  }

  /** The handler answers only about ten times as far from the middle, and otherwise gives up. */
  lemma {:induction false} AnswersExactlyWhen(f: nat, e: int)
    requires Scaled(f, e)
    ensures StartVerdict(f, e) == Done <==> 2 * (f / 10) + 20 <= Tenth(f, e) || 2 * (f / 10) >= Tenth(f, e) + 20
    ensures StartVerdict(f, e) == Done || StartVerdict(f, e) == Failed
  {
    CertifyStart(f, e, CountDigits(Integral(f, e)));
  }

  /**
   * So it gives up where it need not exactly for numbers off the middle by more than the error but not enough for it.
   */
  lemma {:induction false} GivesUpTooEarlyExactlyWhen(f: nat, e: int)
    requires Scaled(f, e)
    ensures StartVerdict(f, e) == Failed && (exists x: int :: NearestForAll(f, 1, 10 * Tenth(f, e), x)) <==>
            || (2 * f + 2 <= 10 * Tenth(f, e) && 2 * (f / 10) + 20 > Tenth(f, e))
            || (2 * f >= 10 * Tenth(f, e) + 2 && 2 * (f / 10) < Tenth(f, e) + 20)
  {
    CertainExactlyWhen(f, e);
    AnswersExactlyWhen(f, e);
    hide Tenth, StartVerdict, NearestForAll;
  }

  /**
   * 5 - 50 * 2^-60, a product of at least 2^62 as that of two normalised numbers is, rounds down to zero tens,
   * certainly, but the handler gives up.
   */
  lemma {:induction false} GivesUpTooEarly()
    ensures var f := 5 * 0x1000_0000_0000_0000 - 50;
      && f >= 0x4000_0000_0000_0000
      && Scaled(f, -60) && StartVerdict(f, -60) == Failed && NearestForAll(f, 1, 10 * Tenth(f, -60), 0)
  {
    var f := 5 * 0x1000_0000_0000_0000 - 50;
    TwoToThe60();
    assert Pow(10, 0) == 1;
    assert Integral(f, -60) == 4;
    AnswersExactlyWhen(f, -60);
    EndsDecide(f, 1, 10 * Tenth(f, -60), 0);
  }

  lemma {:induction false} TwoToThe60()
    ensures Pow(2, 60) == 0x1000_0000_0000_0000
  {
    PowAdd(2, 14, 14);
    PowAdd(2, 28, 32);
    assert Pow(2, 14) == 16384 by {
      PowAdd(2, 7, 7);
      assert Pow(2, 7) == 128;
    }
    Pow2At32();
  }
}
