/** What the shortest-digit loop is for, over exact integers, and what one of its steps decides. */
module ShortestDigits {
  import opened Positional

  /**
   * A positive number and the gaps down and up to its boundaries, as fractions with one denominator:
   * the number is num / den, the boundaries are (num - lower) / den and (num + upper) / den.
   */
  datatype Scaled = Scaled(num: nat, den: nat, lower: nat, upper: nat) {
    ghost predicate Valid() {
      0 < den && 0 < lower < num && 0 < upper
    }
  }

  /**
   * The decimal d / p lies between the boundaries; lowIn and highIn say whether hitting the lower or the upper
   * boundary exactly counts.
   */
  ghost predicate Within(s: Scaled, d: int, p: nat, lowIn: bool, highIn: bool) {
    var x := d * s.den - p * s.num;
    && (-x < p * s.lower || (lowIn && -x == p * s.lower))
    && (x < p * s.upper || (highIn && x == p * s.upper))
  }

  /** A decimal with one digit less lies between the boundaries. */
  ghost predicate Coarser(s: Scaled, d: int, p: nat, lowIn: bool, highIn: bool) {
    Within(s, 10 * d, p, lowIn, highIn)
  }

  /** None does. */
  ghost predicate NoneCoarser(s: Scaled, p: nat, lowIn: bool, highIn: bool) {
    forall d: int :: !Coarser(s, d, p, lowIn, highIn)
  }

  function Abs(x: int): nat {
    if x < 0 then -x else x
  }

  ghost function Distance(s: Scaled, d: int, p: nat): nat {
    Abs(d * s.den - p * s.num)
  }

  /** Of the decimals of this length between the boundaries, d / p is nearest to the number, an even one on a tie. */
  ghost predicate Nearest(s: Scaled, d: int, p: nat, lowIn: bool, highIn: bool) {
    forall d': int :: d' != d && Within(s, d', p, lowIn, highIn) ==>
      Distance(s, d, p) < Distance(s, d', p) || (Distance(s, d, p) == Distance(s, d', p) && d % 2 == 0)
  }

  ghost predicate Shortest(s: Scaled, d: int, p: nat, lowIn: bool, highIn: bool) {
    Within(s, d, p, lowIn, highIn) && NoneCoarser(s, p, lowIn, highIn)
  }

  // ----- One step: q digits so far make d, with remainder r -----

  predicate LowSet(r: int, lower: int, lowIn: bool) {
    r < lower || (lowIn && r == lower)
  }

  predicate HighSet(r: int, upper: int, den: int, highIn: bool) {
    r + upper > den || (highIn && r + upper == den)
  }

  /** The two flags say whether the digits so far, or the next number after them, lie between the boundaries. */
  lemma {:induction false} FlagsDecide(s: Scaled, d: int, p: nat, r: nat, lowIn: bool, highIn: bool)
    requires s.Valid() && p > 0 && p * s.num == d * s.den + r && r < s.den
    ensures Within(s, d, p, lowIn, highIn) <==> LowSet(r, p * s.lower, lowIn)
    ensures Within(s, d + 1, p, lowIn, highIn) <==> HighSet(r, p * s.upper, s.den, highIn)
  {
    Distribute(d, 1, s.den);
    MulGrows(p, s.lower);
    MulGrows(p, s.upper);
  }

  lemma {:induction false} Ordered(s: Scaled, d: int, p: nat, r: int, d': int)
    requires s.den > 0 && 0 <= r && p * s.num == d * s.den + r && r < s.den
    ensures d' <= d ==> d' * s.den - p * s.num <= -r
    ensures d' < d ==> d' * s.den - p * s.num <= -(r + s.den as int)
    ensures d' > d ==> d' * s.den - p * s.num >= s.den - r
    ensures d' > d + 1 ==> d' * s.den - p * s.num >= 2 * s.den - r
  {
    if d' <= d {
      MulMonotonic(d', d, s.den);
      if d' < d {
        MulMonotonic(d', d - 1, s.den);
        Distribute(d, 1, s.den);
      }
    } else {
      Distribute(d, 1, s.den);
      MulMonotonic(d + 1, d', s.den);
      if d' > d + 1 {
        Distribute(d, 2, s.den);
        MulMonotonic(d + 2, d', s.den);
      }
    }
  }

  /** When neither flag is set, nothing of this length lies between the boundaries. */
  lemma {:induction false} NoneHere(s: Scaled, d: int, p: nat, r: nat, lowIn: bool, highIn: bool)
    requires s.Valid() && p > 0 && p * s.num == d * s.den + r && r < s.den
    requires !LowSet(r, p * s.lower, lowIn) && !HighSet(r, p * s.upper, s.den, highIn)
    ensures NoneCoarser(s, 10 * p, lowIn, highIn)
  {
    forall d': int
      ensures !Coarser(s, d', 10 * p, lowIn, highIn)
    {
      Ordered(s, d, p, r, d');
      ScaleByTen(s, d', p, lowIn, highIn);
    }
  }

  lemma {:induction false} ScaleByTen(s: Scaled, d: int, p: nat, lowIn: bool, highIn: bool)
    ensures Within(s, 10 * d, 10 * p, lowIn, highIn) <==> Within(s, d, p, lowIn, highIn)
  {
    MulAssoc(10, d, s.den);
    MulAssoc(10, p, s.num);
    MulAssoc(10, p, s.lower);
    MulAssoc(10, p, s.upper);
  }

  /** The final choice between d and d + 1. */
  predicate RoundsUp(low: bool, high: bool, r: int, den: int, odd: bool) {
    !low || (high && (r + r > den || (r + r == den && odd)))
  }

  lemma {:induction false} ChoiceIsNearest(s: Scaled, d: int, p: nat, r: nat, lowIn: bool, highIn: bool)
    requires s.Valid() && p > 0 && p * s.num == d * s.den + r && r < s.den
    requires var low, high := LowSet(r, p * s.lower, lowIn), HighSet(r, p * s.upper, s.den, highIn);
             low || high
    ensures var low, high := LowSet(r, p * s.lower, lowIn), HighSet(r, p * s.upper, s.den, highIn);
            var result := d + if RoundsUp(low, high, r, s.den, d % 2 != 0) then 1 else 0;
            Within(s, result, p, lowIn, highIn) && Nearest(s, result, p, lowIn, highIn)
  {
    FlagsDecide(s, d, p, r, lowIn, highIn);
    Distribute(d, 1, s.den);
    var low, high := LowSet(r, p * s.lower, lowIn), HighSet(r, p * s.upper, s.den, highIn);
    var result := d + if RoundsUp(low, high, r, s.den, d % 2 != 0) then 1 else 0;
    forall d': int | d' != result && Within(s, d', p, lowIn, highIn)
      ensures Distance(s, result, p) < Distance(s, d', p)
           || (Distance(s, result, p) == Distance(s, d', p) && result % 2 == 0)
    {
      Ordered(s, d, p, r, d');
    }
  }

  // ----- The boundary the comparison can miss -----

  /**
   * The lower boundary is itself a decimal of some length at which nothing else lies between the boundaries.
   */
  ghost predicate BoundaryIsShortest(s: Scaled, highIn: bool) {
    exists k: nat, d: int :: BoundaryDecimal(s, d, k) && NothingElse(s, k, highIn)
  }

  ghost predicate NothingElse(s: Scaled, k: nat, highIn: bool) {
    forall d: int :: !Within(s, d, Pow(10, k), false, highIn)
  }

  ghost predicate BoundaryDecimal(s: Scaled, d: int, k: nat) {
    d * s.den == Pow(10, k) * (s.num - s.lower)
  }

  lemma {:induction false} ScaleByPow(s: Scaled, d: int, k: nat, m: nat, lowIn: bool, highIn: bool)
    ensures Within(s, d * Pow(10, m), Pow(10, k + m), lowIn, highIn) <==> Within(s, d, Pow(10, k), lowIn, highIn)
    ensures BoundaryDecimal(s, d * Pow(10, m), k + m) <==> BoundaryDecimal(s, d, k)
  {
    if m == 0 {
    } else {
      ScaleByPow(s, d, k, m - 1, lowIn, highIn);
      var d', p := d * Pow(10, m - 1), Pow(10, k + m - 1);
      ScaleByTen(s, d', p, lowIn, highIn);
      assert d * Pow(10, m) == 10 * d' by {
        MulAssoc(d, 10, Pow(10, m - 1));
        MulAssoc(10, d, Pow(10, m - 1));
      }
      MulAssoc(10, d', s.den);
      MulAssoc(10, p, s.num - s.lower);
    }
  }

  /**
   * A decimal that is shortest when the lower boundary is left out is shortest with the boundary counted exactly
   * when the boundary is not itself the shorter answer.
   */
  lemma {:induction false} ShortestWithBoundary(s: Scaled, d: int, n: nat, highIn: bool)
    requires s.Valid() && Shortest(s, d, Pow(10, n), false, highIn)
    requires s.num < 10 * s.den
    ensures Shortest(s, d, Pow(10, n), true, highIn) <==> !BoundaryIsShortest(s, highIn)
  {
    if BoundaryIsShortest(s, highIn) {
      var k: nat, b: int :| BoundaryDecimal(s, b, k) && NothingElse(s, k, highIn);
      BoundaryIsCoarser(s, d, n, b, k, highIn);
    } else if !NoneCoarser(s, Pow(10, n), true, highIn) {
      var c: int :| Coarser(s, c, Pow(10, n), true, highIn);
      CoarserIsBoundary(s, d, n, c, highIn);
    }
  }

  lemma {:induction false} BoundaryIsCoarser(s: Scaled, d: int, n: nat, b: int, k: nat, highIn: bool)
    requires s.Valid() && Within(s, d, Pow(10, n), false, highIn)
    requires BoundaryDecimal(s, b, k) && NothingElse(s, k, highIn)
    ensures !NoneCoarser(s, Pow(10, n), true, highIn)
  {
    if n <= k {
      ScaleByPow(s, d, n, k - n, false, highIn);
      assert false;
    }
    var c := b * Pow(10, n - 1 - k);
    ScaleByPow(s, b, k, n - 1 - k, false, highIn);
    BoundaryWithin(s, c, n - 1, highIn);
    ScaleByTen(s, c, Pow(10, n - 1), true, highIn);
    assert Coarser(s, c, Pow(10, n), true, highIn);
  }

  lemma {:induction false} CoarserIsBoundary(s: Scaled, d: int, n: nat, c: int, highIn: bool)
    requires s.Valid() && s.num < 10 * s.den
    requires NoneCoarser(s, Pow(10, n), false, highIn) && Coarser(s, c, Pow(10, n), true, highIn)
    ensures BoundaryIsShortest(s, highIn)
  {
    hide Pow, Within, NothingElse;
    assert !Coarser(s, c, Pow(10, n), false, highIn);
    OnBoundary(s, c, Pow(10, n), highIn);
    NotWithoutDigits(s, c, n);
    OneDigitLess(s, c, n);
    NothingElseBefore(s, n, highIn);
    assert BoundaryDecimal(s, c, n - 1) && NothingElse(s, n - 1, highIn);
  }

  /** What counts only with the boundary is the boundary. */
  lemma {:induction false} OnBoundary(s: Scaled, c: int, p: nat, highIn: bool)
    requires Coarser(s, c, p, true, highIn) && !Coarser(s, c, p, false, highIn)
    ensures 10 * c * s.den == p * (s.num - s.lower)
  {
    Distribute(s.num, s.lower, p);
  }

  lemma {:induction false} NotWithoutDigits(s: Scaled, c: int, n: nat)
    requires s.Valid() && s.num < 10 * s.den && 10 * c * s.den == Pow(10, n) * (s.num - s.lower)
    ensures n > 0
  {
    if n == 0 {
      MulSwap(10, c, s.den);
      MulAssoc(c, 10, s.den);
      SmallMultiple(c, 10 * s.den);
    }
  }

  lemma {:induction false} OneDigitLess(s: Scaled, c: int, n: nat)
    requires n > 0 && 10 * c * s.den == Pow(10, n) * (s.num - s.lower)
    ensures BoundaryDecimal(s, c, n - 1)
  {
    PowStep(10, n);
    hide Pow;
    MulAssoc(10, c, s.den);
    MulAssoc(10, Pow(10, n - 1), s.num - s.lower);
  }

  lemma {:induction false} NothingElseBefore(s: Scaled, n: nat, highIn: bool)
    requires n > 0 && NoneCoarser(s, Pow(10, n), false, highIn)
    ensures NothingElse(s, n - 1, highIn)
  {
    hide Within;
    var p := Pow(10, n - 1);
    PowStep(10, n);
    forall d: int
      ensures !Within(s, d, p, false, highIn)
    {
      assert !Coarser(s, d, 10 * p, false, highIn);
      ScaleByTen(s, d, p, false, highIn);
    }
  }

  lemma {:induction false} BoundaryWithin(s: Scaled, d: int, k: nat, highIn: bool)
    requires s.Valid() && BoundaryDecimal(s, d, k)
    ensures Within(s, d, Pow(10, k), true, highIn)
  {
    Distribute(s.num, s.lower, Pow(10, k));
    MulGrows(Pow(10, k), s.upper);
    MulGrows(Pow(10, k), s.lower);
  }
}
