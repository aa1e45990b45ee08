/** The arbitrary-precision unsigned integer behind the library's exact floating-point output. */
module BigIntegers {
  import opened Positional
  import opened LimbArithmetic
  import opened Columns

  /** How many limbs the buffer of a number holds. */
  const CAPACITY: nat := 32

  /** The two-word stand-in for a 128-bit sum. */
  class Accumulator {
    var lower: nat
    var upper: nat

    ghost predicate Valid()
      reads this
    {
      lower < WORD && upper < WORD
    }

    ghost function Sum(): nat
      reads this
    {
      lower + WORD * upper
    }

    constructor ()
      ensures Valid() && Sum() == 0
    {
      lower, upper := 0, 0;
    }

    /** As long as the true sum fits 128 bits, adding a 64-bit term is exact. */
    method Add(n: nat)
      requires Valid() && n < WORD
      requires Sum() + n < WORD * WORD
      modifies this
      ensures Valid() && Sum() == old(Sum()) + n
    {
      lower := (lower + n) % WORD;
      if lower < n {
        upper := (upper + 1) % WORD;
      }
    }

    /** Moves the sum down by 32 bits; the bits moved out are `Low(lower)`. */
    method ShiftRight32()
      requires Valid()
      modifies this
      ensures Valid() && Sum() == High(old(Sum()))
      ensures old(Sum()) == Low(old(lower)) + BASE * Sum()
    {
      lower := upper % BASE * BASE + lower / BASE;
      upper := upper / BASE;
    }
  }

  class Bigint {
    var bigits: seq<Limb>
    var exp: nat

    ghost function Value(): nat
      reads this
    {
      Num(bigits, exp)
    }

    function NumBigits(): nat
      reads this
    {
      |bigits| + exp
    }

    ghost predicate Normalised()
      reads this
    {
      |bigits| > 0 && bigits[|bigits| - 1] != 0
    }

    constructor ()
      ensures bigits == [] && exp == 0
    {
      bigits, exp := [], 0;
    }

    /** Assigns a 64-bit number. */
    method AssignWord(n: nat)
      requires n < WORD
      modifies this
      ensures Value() == n && exp == 0 && 1 <= |bigits| <= 2
      ensures if n == 0 then bigits == [0] else Normalised()
      ensures n < BASE ==> bigits == [n]
    {
      SmallLimbs(n);
      bigits, exp := [Low(n)], 0;
      ValSnoc([], Low(n));
      ValSnoc([Low(n)], High(n));
      assert [] + [Low(n)] == [Low(n)];
      assert Pow(BASE, 1) == BASE;
      if High(n) != 0 {
        bigits := bigits + [High(n)];
      }
    }

    method Assign(other: Bigint)
      modifies this
      ensures bigits == old(other.bigits) && exp == old(other.exp)
    {
      bigits, exp := other.bigits, other.exp;
    }

    /** `*= value` for a 32-bit factor. */
    method Multiply32(value: nat)
      requires 0 < value < BASE
      modifies this`bigits
      ensures Value() == old(Value()) * value
      ensures old(Normalised()) ==> Normalised()
      ensures old(bigits) == [0] ==> bigits == [0]
    {
      hide Pow, Val, Num, Low, High, Carried;
      ghost var b := bigits;
      var carry: Limb := 0;
      var i, n := 0, |bigits|;
      CarryStart(b, value);
      while i < n
        invariant i <= n == |b| == |bigits|
        invariant b == [0] ==> carry == 0 && bigits == [0]
        invariant Carried(bigits, b, i, value, carry)
      {
        var result := bigits[i] * value + carry;
        ProductFits(bigits[i], value, carry);
        CarryStep(bigits, b, i, value, carry, Low(result), High(result));
        bigits := bigits[i := Low(result)];
        carry := High(result);
        i := i + 1;
      }
      FinishCarry(b, bigits, carry, value);
      if carry != 0 {
        bigits := bigits + [carry];
      }
      NumScale(b, bigits, value, exp);
    }

    /** `*= value` for a 64-bit factor. */
    method Multiply64(value: nat)
      requires 0 < value < WORD
      modifies this`bigits
      ensures Value() == old(Value()) * value
      ensures old(Normalised()) ==> Normalised()
    {
      hide Pow, Val, Num, Low, High, Carried;
      ghost var b := bigits;
      var lower: nat, upper: nat, carry: nat := Low(value), High(value), 0;
      var i, n := 0, |bigits|;
      CarryStart(b, value);
      while i < n
        invariant i <= n == |b| == |bigits| && carry < WORD
        invariant Carried(bigits, b, i, value, carry)
      {
        WideProductFits(bigits[i], value, carry);
        var result := bigits[i] * lower + Low(carry);
        var newCarry := bigits[i] * upper + High(result) + High(carry);
        CarryStep(bigits, b, i, value, carry, Low(result), newCarry);
        carry := newCarry;
        bigits := bigits[i := Low(result)];
        i := i + 1;
      }
      WideCarryLeft(b, bigits, carry, value);
      hide PlusCarry;
      while carry != 0
        invariant PlusCarry(bigits, carry) == Val(b) * value
        invariant carry == 0 && old(Normalised()) ==> Normalised()
        decreases carry
      {
        PushCarry(bigits, carry);
        bigits := bigits + [Low(carry)];
        carry := High(carry);
      }
      NoCarry(bigits);
      NumScale(b, bigits, value, exp);
    }

    /** `<<= shift`. */
    method ShiftLeft(shift: nat)
      modifies this
      ensures Value() == old(Value()) * Pow(2, shift) && exp == old(exp) + shift / 32
      ensures old(Normalised()) ==> Normalised()
    {
      ShiftValue(Val(bigits), exp, shift);
      exp := exp + shift / 32;
      if shift % 32 != 0 {
        ShiftLimbs(shift % 32);
      }
    }

    /** The part of `<<=` that moves bits between limbs. */
    method ShiftLimbs(s: nat)
      requires 0 < s < 32
      modifies this`bigits
      ensures Val(bigits) == old(Val(bigits)) * Pow(2, s)
      ensures old(Normalised()) ==> Normalised()
    {
      hide Pow, Val, Num, Low, High, Carried;
      ghost var b := bigits;
      var carry := 0;
      var i, n := 0, |bigits|;
      CarryStart(b, Pow(2, s));
      while i < n
        invariant i <= n == |b| == |bigits| && 0 <= carry < Pow(2, s) && carry < BASE
        invariant Carried(bigits, b, i, Pow(2, s), carry)
      {
        var c := bigits[i] / Pow(2, 32 - s);
        ShiftStep(bigits[i], s, carry);
        var d := Low(bigits[i] * Pow(2, s)) + carry;
        CarryStep(bigits, b, i, Pow(2, s), carry, d, c);
        bigits := bigits[i := d];
        carry := c;
        i := i + 1;
      }
      FinishCarry(b, bigits, carry, Pow(2, s));
      if carry != 0 {
        bigits := bigits + [carry];
      }
    }

    method RemoveLeadingZeros()
      requires |bigits| > 0
      modifies this`bigits
      ensures Val(bigits) == old(Val(bigits)) && Value() == old(Value())
      ensures Normalised() || bigits == [0]
      ensures |bigits| <= old(|bigits|)
    {
      var n := |bigits| - 1;
      while n > 0 && bigits[n] == 0
        invariant 0 <= n < |bigits|
        invariant forall i :: n < i < |bigits| ==> bigits[i] == 0
      {
        n := n - 1;
      }
      ValOfZeroes(bigits, n + 1);
      bigits := bigits[..n + 1];
    }

    /** Subtracts a limb and a borrow at one position; returns the new borrow, taken from bit 63 of the difference. */
    method SubtractBigits(index: nat, other: Limb, borrow: nat) returns (newBorrow: nat)
      requires index < |bigits| && borrow <= 1
      modifies this`bigits
      ensures newBorrow <= 1 && |bigits| == old(|bigits|)
      ensures forall m :: 0 <= m < |bigits| && m != index ==> bigits[m] == old(bigits)[m]
      ensures bigits[index] - BASE * newBorrow == old(bigits[index]) - other - borrow
    {
      BorrowStep(bigits[index], other, borrow);
      var result := (bigits[index] - other - borrow) % WORD;
      bigits := bigits[index := Low(result)];
      newBorrow := result / 0x8000_0000_0000_0000;
    }

    /** Is this difference one whose final borrow, if any, meets a non-zero limb? */
    ghost predicate BorrowStops(other: Bigint)
      requires exp <= other.exp && other.NumBigits() <= NumBigits()
      reads this, other
    {
      var k := other.NumBigits() - exp;
      Val(bigits[..k]) >= Num(other.bigits, other.exp - exp) || (k < |bigits| && bigits[k] != 0)
    }

    /**
     * `*this -= other` for aligned numbers. The loop that pays the final borrow stays at one position, so the
     * difference is right exactly when that borrow does not meet a zero limb.
     */
    method SubtractAligned(other: Bigint)
      requires other != this && exp <= other.exp && other.Normalised()
      requires |bigits| > 0 && Value() >= other.Value()
      modifies this`bigits
      ensures other.NumBigits() <= old(NumBigits()) && |bigits| <= old(|bigits|)
      ensures Normalised() || bigits == [0]
      ensures Value() == old(Value()) - other.Value() <==> old(BorrowStops(other))
    {
      hide Pow, Val, Num, Borrowed, BorrowPaid;
      LongerThanSubtrahend(bigits, exp, other.bigits, other.exp);
      ghost var b, o := bigits, other.bigits;
      ghost var off := other.exp - exp;
      var borrow := 0;
      var i, j := other.exp - exp, 0;
      BorrowStart(b, o, off);
      while j != |other.bigits|
        invariant j <= |o| && i == off + j && |bigits| == |b| && borrow <= 1
        invariant Borrowed(bigits, b, o, off, j, borrow)
        decreases |o| - j
      {
        ghost var before, borrow0 := bigits, borrow;
        borrow := SubtractBigits(i, other.bigits[j], borrow);
        assert bigits == before[i := bigits[i]];
        SubtractStep(before, b, o, off, j, borrow0, bigits[i], borrow);
        i, j := i + 1, j + 1;
      }
      ScaledDifference(b, o, off, exp, b);
      FinalBorrow(b, bigits, o, off, borrow);
      ghost var s := bigits;
      if borrow > 0 {
        PayBorrow(i);
        PaidLimb(s, bigits, i);
      }
      ScaledDifference(b, o, off, exp, bigits);
      RemoveLeadingZeros();
    }

    /** The borrow loop, entered with a borrow of one: it never moves on from position i. */
    method PayBorrow(i: nat)
      requires i < |bigits|
      modifies this`bigits
      ensures BorrowPaid(old(bigits), bigits, i)
    {
      ghost var s := bigits;
      var borrow := 1;
      while borrow > 0
        invariant borrow <= 1 && |bigits| == |s|
        invariant forall m :: 0 <= m < |s| && m != i ==> bigits[m] == s[m]
        invariant
          || (borrow == 1 && bigits[i] == s[i])
          || (borrow == 0 && s[i] != 0 && bigits[i] == s[i] - 1)
          || (s[i] == 0 && bigits[i] == if borrow == 1 then BASE - 1 else BASE - 2)
        decreases borrow, if bigits[i] != 0 then 0 else 1
      {
        borrow := SubtractBigits(i, 0, borrow);
      }
    }

    /** Lowers the exponent by n, making up for it with n zero limbs at the bottom. */
    method AddTrailingZeros(n: nat)
      requires n <= exp
      modifies this
      ensures bigits == Zeros(n) + old(bigits) && exp == old(exp) - n
      ensures Value() == old(Value())
    {
      hide Val, Pow, Num;
      ghost var b := bigits;
      MoveUp(n);
      bigits, exp := Zeros(n) + bigits[n..], exp - n;
      TrailingZeros(b, n, exp);
    }

    /** Makes room for n limbs at the bottom. */
    method MoveUp(n: nat)
      modifies this`bigits
      ensures |bigits| == |old(bigits)| + n && bigits[n..] == old(bigits)
    {
      ghost var b := bigits;
      var num := |bigits|;
      bigits := bigits + Zeros(n);
      var i, j := num - 1, num - 1 + n;
      while i >= 0
        invariant -1 <= i < num && j == i + n && |bigits| == num + n
        invariant forall m :: 0 <= m <= i ==> bigits[m] == b[m]
        invariant forall m :: j < m < num + n ==> bigits[m] == b[m - n]
      {
        bigits := bigits[j := bigits[i]];
        i, j := i - 1, j - 1;
      }
    }

    /**
     * Division by repeated subtraction: the quotient is returned, the remainder is left. The answer is right except
     * when the two numbers are equal and the dividend has the larger exponent; then nothing is subtracted.
     */
    method DivmodAssign(divisor: Bigint) returns (quotient: nat)
      requires this != divisor && divisor.Normalised() && NotOverlong(this, divisor)
      requires Value() < 0x8000_0000 * divisor.Value()
      modifies this
      ensures quotient < 0x8000_0000
      ensures old(Value()) == quotient * divisor.Value() + Value() && Value() < divisor.Value() <==>
              !(old(Value()) == divisor.Value() && old(exp) > divisor.exp)
      ensures old(Value()) == divisor.Value() && old(exp) > divisor.exp ==> quotient == 0
      ensures NumBigits() <= old(NumBigits()) && (quotient == 0 ==> bigits == old(bigits) && exp == old(exp))
      ensures quotient > 0 ==> exp == Min(old(exp), divisor.exp) && (Normalised() || bigits == [0])
    {
      hide Pow, Val, Num;
      ghost var v, d := Value(), divisor.Value();
      PositiveNumber(divisor.bigits, divisor.exp);
      var c := Compare(this, divisor);
      if c < 0 {
        return 0;
      }
      if !Normalised() {
        TopLimbNeeded(bigits, exp, divisor.bigits, divisor.exp);
      }
      if exp > divisor.exp {
        AddTrailingZeros(exp - divisor.exp);
        assert |bigits| > 0 && bigits[|bigits| - 1] == old(bigits)[|old(bigits)| - 1];
      }
      quotient := 0;
      while c >= 0
        invariant exp == Min(old(exp), divisor.exp) <= divisor.exp && NumBigits() <= old(NumBigits())
        invariant divisor.Value() == d && divisor.Normalised()
        invariant Normalised() || bigits == [0]
        invariant NotOverlong(this, divisor)
        invariant v == quotient * d + Value()
        invariant c >= 0 <==> Value() >= d
        decreases Value()
      {
        FewLimbs(bigits, exp, divisor.bigits, divisor.exp);
        SubtractAligned(divisor);
        Distribute(quotient, 1, d);
        quotient := quotient + 1;
        c := Compare(this, divisor);
      }
      if quotient >= 0x8000_0000 {
        MulMonotonic(0x8000_0000, quotient, d);
      }
    }

    /** Squares the number, column by column of the schoolbook product. */
    method Square()
      requires 0 < |bigits| < 0x4000_0000
      modifies this
      ensures Value() == old(Value()) * old(Value()) && exp == 2 * old(exp)
      ensures old(Normalised()) ==> Normalised()
    {
      hide Pow, Val, Num, Low, High, ColumnsDone, Column;
      ghost var v, e := Value(), exp;
      var n := bigits;
      var num, numResult := |bigits|, 2 * |bigits|;
      bigits := bigits + Zeros(numResult - num);
      var sum := new Accumulator();
      var k := 0;
      ColumnsStart(bigits, n);
      while k < num
        invariant k <= num && |bigits| == numResult && exp == old(exp) && fresh(sum)
        invariant sum.Valid() && sum.Sum() <= num * BASE
        invariant ColumnsDone(bigits, n, k, sum.Sum())
      {
        ghost var carry, before := sum.Sum(), bigits;
        AddLowColumn(n, k, sum);
        bigits := bigits[k := Low(sum.lower)];
        sum.ShiftRight32();
        ColumnsStep(before, n, k, carry, bigits[k], sum.Sum());
        k := k + 1;
      }
      while k < numResult
        invariant num <= k <= numResult && |bigits| == numResult && exp == old(exp) && fresh(sum)
        invariant sum.Valid() && sum.Sum() <= num * BASE
        invariant ColumnsDone(bigits, n, k, sum.Sum())
      {
        ghost var carry, before := sum.Sum(), bigits;
        AddHighColumn(n, k, sum);
        bigits := bigits[k := Low(sum.lower)];
        sum.ShiftRight32();
        ColumnsStep(before, n, k, carry, bigits[k], sum.Sum());
        k := k + 1;
      }
      SquareIsExact(bigits, n, sum.Sum(), exp);
      ghost var r := bigits;
      RemoveLeadingZeros();
      exp := exp * 2;
      SameNumber(r, bigits, exp);
      if old(Normalised()) {
        PositiveNumber(n, e);
        MulGrows(v, v);
        ZeroNumber(2 * e);
      }
    }

    /** Assigns 10^exp10: repeated squaring gives 5^exp10, a shift the rest. */
    method AssignPow10(exp10: nat)
      requires exp10 < 0x4000_0000
      modifies this
      ensures Value() == Pow(10, exp10) && Normalised() && exp == exp10 / 32
    {
      if exp10 == 0 {
        AssignWord(1);
        return;
      }
      assert TopBits(exp10, 1) == exp10;
      hide Pow, Num, Val, TopBits;
      var bitmask;
      ghost var b: nat;
      bitmask, b := TopBit(exp10);
      AssignWord(5);
      ghost var step := bitmask;
      Pow5Start(exp10, step);
      bitmask := bitmask / 2;
      while bitmask != 0
        invariant step == Pow(2, b) && step > 0 && bitmask == step / 2 && exp == 0 && Normalised()
        invariant Value() == Pow(5, TopBits(exp10, step))
        decreases bitmask
      {
        PowOfTwo(b);
        FewLimbsOfPow5(bigits, exp10, step);
        if exp10 <= 360 {
          SquareHasRoom(bigits, exp10, step);
        }
        assert exp10 <= 360 ==> 2 * |bigits| <= CAPACITY;
        HalfStep(exp10, bitmask);
        Square();
        if TopBits(exp10, bitmask) % 2 != 0 {
          Multiply32(5);
        }
        step, b := bitmask, b - 1;
        bitmask := bitmask / 2;
      }
      ShiftLeft(exp10);
      PowOfProduct(5, 2, exp10);
    }
  }

  /** 2^64 - 1 with both numbers at exponent zero: the borrow meets a zero limb, and the difference is wrong. */
  method ABorrowIsLost() returns (n: Bigint)
    ensures fresh(n) && n.Value() != 0x1_0000_0000_0000_0000 - 1
  {
    hide Pow, Num, Val;
    n := new Bigint();
    n.AssignWord(1);
    n.ShiftLeft(64);
    TwoLimbs();
    n.AddTrailingZeros(2);
    var one := new Bigint();
    one.AssignWord(1);
    ZeroLimbs(n, one);
    n.SubtractAligned(one);
  }

  lemma {:induction false} SmallLimbs(n: nat)
    ensures n < BASE ==> Low(n) == n && High(n) == 0
  {
  }

  lemma {:induction false} TwoLimbs()
    ensures Pow(2, 64) == BASE * BASE
  {
    PowAdd(2, 32, 32);
    Pow2At32();
  }

  lemma {:induction false} ZeroLimbs(n: Bigint, other: Bigint)
    requires n.exp == 0 && |n.bigits| > 2 && n.bigits[0] == n.bigits[1] == 0
    requires other.exp == 0 && other.bigits == [1]
    ensures !n.BorrowStops(other)
  {
    assert Val([1]) == 1 && n.bigits[..1] == [0] && Val([0]) == 0;
  }

  /** 2^32 divided by itself, the dividend with the larger exponent: the quotient is zero. */
  method AnEqualIsNotDivided() returns (n: Bigint, quotient: nat)
    ensures fresh(n) && quotient == 0 && n.Value() == BASE
  {
    hide Pow, Num, Val;
    n := new Bigint();
    n.AssignWord(1);
    n.ShiftLeft(32);
    Pow2At32();
    var divisor := new Bigint();
    divisor.AssignWord(BASE);
    quotient := n.DivmodAssign(divisor);
  }

  /** The top bit of a positive number. */
  method TopBit(n: nat) returns (bitmask: nat, ghost b: nat)
    requires n > 0
    ensures bitmask == Pow(2, b) && 0 < bitmask <= n < 2 * bitmask
  {
    hide Pow;
    b, bitmask := 0, 1;
    PowOfTwo(0);
    while n >= bitmask
      invariant bitmask == Pow(2, b) && 0 < bitmask <= 2 * n && (b == 0 ==> bitmask == 1)
      decreases n - bitmask
    {
      PowOfTwo(b);
      bitmask, b := bitmask * 2, b + 1;
    }
    PowOfTwo(b);
    bitmask, b := bitmask / 2, b - 1;
  }

  function Zeros(n: nat): (s: seq<Limb>)
    ensures |s| == n && forall i :: 0 <= i < n ==> s[i] == 0
  {
    seq(n, _ => 0)
  }

  lemma {:induction false} TrailingZeros(b: seq<Limb>, n: nat, e: nat)
    ensures Num(Zeros(n) + b, e) == Num(b, e + n)
  {
    ValConcat(Zeros(n), b);
    ValOfZeroes(Zeros(n), 0);
    assert Zeros(n)[..0] == [];
    PowAdd(BASE, n, e);
    MulAssoc(Val(b), Pow(BASE, n), Pow(BASE, e));
  }

  /** A number no longer than a normalised one and not below it has a non-zero top limb. */
  lemma {:induction false} TopLimbNeeded(s: seq<Limb>, e: nat, o: seq<Limb>, oe: nat)
    requires |s| > 0 && |o| > 0 && o[|o| - 1] != 0
    requires |s| + e <= |o| + oe && Num(s, e) >= Num(o, oe)
    ensures s[|s| - 1] != 0
  {
    if s[|s| - 1] == 0 {
      var t := s[..|s| - 1];
      ValOfZeroes(s, |s| - 1);
      LongerThanSubtrahend(t, e, o, oe);
    }
  }

  lemma {:induction false} PositiveNumber(s: seq<Limb>, e: nat)
    requires |s| > 0 && s[|s| - 1] != 0
    ensures Num(s, e) > 0
  {
    ValueBounds(s, e);
  }

  /** A dividend this small has at most one limb above the divisor's, and a borrow stops there. */
  lemma {:induction false} FewLimbs(s: seq<Limb>, e: nat, o: seq<Limb>, oe: nat)
    requires |s| > 0 && |o| > 0 && o[|o| - 1] != 0 && e <= oe
    requires Num(o, oe) <= Num(s, e) < 0x8000_0000 * Num(o, oe)
    requires s[|s| - 1] != 0 || s == [0]
    ensures |o| + oe <= |s| + e
    ensures var k := |o| + oe - e;
            Val(s[..k]) >= Num(o, oe - e) || (k < |s| && s[k] != 0)
  {
    PositiveNumber(o, oe);
    LongerThanSubtrahend(s, e, o, oe);
    var k := |o| + oe - e;
    if k == |s| {
      assert s[..k] == s;
      ScaledDifference(s, o, oe - e, e, s);
    } else {
      assert s != [0] by {
        assert s == [0] ==> Val(s) == 0;
      }
      ValueBounds(s, e);
      ValueBounds(o, oe);
      assert Pow(BASE, |o| + oe + 1) == BASE * Pow(BASE, |o| + oe);
      hide Pow, Val, Num;
      if k + 1 < |s| {
        PowMonotonic(BASE, |o| + oe + 1, |s| + e - 1);
      }
    }
  }

  /** The borrow loop, left at position k, turned s into r. */
  ghost predicate BorrowPaid(s: seq<Limb>, r: seq<Limb>, k: nat) {
    && k < |s| == |r|
    && (forall m :: 0 <= m < |s| && m != k ==> r[m] == s[m])
    && r[k] == if s[k] != 0 then s[k] - 1 else BASE - 2
  }

  /** Paying a borrow from one limb takes one off the number above it exactly when the limb is not zero. */
  lemma {:induction false} PaidLimb(s: seq<Limb>, r: seq<Limb>, k: nat)
    requires BorrowPaid(s, r, k)
    ensures Val(r) == Val(s) - Pow(BASE, k) <==> s[k] != 0
  {
    var d: int := r[k];
    var d0: int := s[k];
    ReplaceLimb(s, k, r[k]);
    assert r == s[k := r[k]];
    SameMultiple(d - d0, -1, Pow(BASE, k));
  }

  /** Limbs together with a carry above them. */
  ghost function PlusCarry(s: seq<Limb>, carry: nat): nat {
    Val(s) + Pow(BASE, |s|) * carry
  }

  lemma {:induction false} NoCarry(s: seq<Limb>)
    ensures PlusCarry(s, 0) == Val(s)
  {
  }

  /** A 64-bit carry left after the last limb. */
  lemma {:induction false} WideCarryLeft(b: seq<Limb>, s: seq<Limb>, carry: nat, v: nat)
    requires v > 0 && Carried(s, b, |b|, v, carry)
    ensures PlusCarry(s, carry) == Val(b) * v
    ensures carry == 0 && |b| > 0 && b[|b| - 1] != 0 ==> s[|s| - 1] != 0
  {
    assert s[..|b|] == s && b[..|b|] == b;
    if carry == 0 {
      FinishCarry(b, s, 0, v);
    }
  }

  lemma {:induction false} PushCarry(s: seq<Limb>, carry: nat)
    requires carry > 0
    ensures PlusCarry(s + [Low(carry)], High(carry)) == PlusCarry(s, carry)
    ensures High(carry) < carry && (High(carry) == 0 ==> Low(carry) != 0)
  {
    ValSnoc(s, Low(carry));
    var p, l, h := Pow(BASE, |s|), Low(carry), High(carry);
    assert Pow(BASE, |s| + 1) == BASE * p && carry == l + BASE * h;
    hide Pow, Val, Low, High;
    MulAssoc(p, BASE, h);
    Distribute(l, BASE * h, p);
  }

  lemma {:induction false} ShiftValue(v: nat, e: nat, shift: nat)
    ensures v * Pow(BASE, e) * Pow(2, shift) == v * Pow(2, shift % 32) * Pow(BASE, e + shift / 32)
    ensures shift % 32 == 0 ==> v * Pow(BASE, e) * Pow(2, shift) == v * Pow(BASE, e + shift / 32)
  {
    hide Pow;
    var k, t := shift / 32, shift % 32;
    assert shift == 32 * k + t;
    PowAdd(2, 32 * k, t);
    PowOfPow(2, 32, k);
    Pow2At32();
    PowAdd(BASE, e, k);
    MoveFactor(v, Pow(BASE, e), Pow(BASE, k), Pow(2, t));
    PowOfTwo(0);
  }

  lemma {:induction false} MoveFactor(v: int, p: int, b: int, t: int)
    ensures v * p * (b * t) == v * t * (p * b)
  {
    ProductOfProducts(v, p, t, b);
    assert b * t == t * b;
  }

  /** The low half of the columns: terms n[i] * n[j] with i + j == k < |n|. */
  method AddLowColumn(n: seq<Limb>, k: nat, sum: Accumulator)
    requires k < |n| < 0x4000_0000 && sum.Valid() && sum.Sum() <= |n| * BASE
    modifies sum
    ensures sum.Valid() && sum.Sum() == old(sum.Sum()) + Column(n, n, k)
  {
    hide Partial;
    PartialStart(n, n, k);
    var i, j := 0, k as int;
    while j >= 0
      invariant i <= k + 1 && j == k - i
      invariant sum.Valid() && sum.Sum() == old(sum.Sum()) + Partial(n, n, k, i)
      decreases j
    {
      PartialStep(n, n, k, i);
      PartialBound(n, n, k, i);
      ProductFits(n[i], n[j], 0);
      sum.Add((n[i] as int) * (n[j] as int));
      i, j := i + 1, j - 1;
    }
  }

  /** The top half: the same terms for k >= |n|. */
  method AddHighColumn(n: seq<Limb>, k: nat, sum: Accumulator)
    requires 0 < |n| <= k < 2 * |n| && |n| < 0x4000_0000 && sum.Valid() && sum.Sum() <= |n| * BASE
    modifies sum
    ensures sum.Valid() && sum.Sum() == old(sum.Sum()) + Column(n, n, k)
  {
    hide Partial;
    var j: int := |n| - 1;
    var i: int := k - j;
    PartialZero(n, n, k, i);
    while i < |n|
      invariant k - |n| + 1 <= i <= |n| && j == k - i
      invariant sum.Valid() && sum.Sum() == old(sum.Sum()) + Partial(n, n, k, i)
    {
      PartialStep(n, n, k, i);
      PartialBound(n, n, k, i);
      ProductFits(n[i], n[j], 0);
      sum.Add((n[i] as int) * (n[j] as int));
      i, j := i + 1, j - 1;
    }
    PartialPastEnd(n, n, k, |n|, k + 1);
  }

  /** 5^k with k < 2^30 has far fewer than 2^30 limbs. */
  lemma {:induction false} FewLimbsOfPow5(s: seq<Limb>, e: nat, m: nat)
    requires m > 0 && e < 0x4000_0000
    requires |s| > 0 && s[|s| - 1] != 0 && Num(s, 0) == Pow(5, TopBits(e, m))
    ensures |s| < 0x4000_0000
  {
    var k := TopBits(e, m);
    assert k <= e by {
      DivModEquation(e, m);
      MulGrows(k, m);
    }
    hide TopBits;
    ValueBounds(s, 0);
    PowLeft(5, 8, k);
    assert Pow(2, 3) == 8;
    PowOfPow(2, 3, k);
    Pow2At32();
    PowOfPow(2, 32, |s| - 1);
    if 32 * (|s| - 1) > 3 * k {
      PowStrict(2, 3 * k, 32 * (|s| - 1));
    }
  }

  lemma {:induction false} PowersOfBase(k: nat)
    ensures Pow(2, 32 * k) == Pow(BASE, k)
  {
    Pow2At32();
    PowOfPow(2, 32, k);
  }

  lemma {:induction false} ShortNumber(s: seq<Limb>, e: nat, x: nat, k: nat)
    requires |s| > 0 && s[|s| - 1] != 0 && Num(s, e) < x <= Pow(BASE, k)
    ensures |s| + e <= k
  {
    ValueBounds(s, e);
    hide Num, Pow;
    if |s| + e > k {
      PowMonotonic(BASE, k, |s| + e - 1);
    }
  }

  /** 5^180 has fewer than 480 bits. */
  lemma {:induction false} FiveToThe180()
    ensures Pow(5, 180) < Pow(2, 480)
  {
    PowLeft(125, 128, 60);
    assert Pow(5, 3) == 125 && Pow(2, 7) == 128;
    PowOfPow(5, 3, 60);
    PowOfPow(2, 7, 60);
    PowStrict(2, 420, 480);
  }

  /**
   * Squaring needs twice as many limbs for a moment. For exponents up to 360 the buffer has them: what is squared is at
   * most 5^180, of at most 15 limbs.
   */
  lemma {:induction false} SquareHasRoom(s: seq<Limb>, e: nat, m: nat)
    requires m >= 2 && e <= 360
    requires |s| > 0 && s[|s| - 1] != 0 && Num(s, 0) == Pow(5, TopBits(e, m))
    ensures 2 * |s| <= CAPACITY
  {
    var k := TopBits(e, m);
    DivModEquation(e, m);
    MulMonotonic(2, m, k);
    hide TopBits, Pow, Num;
    PowMonotonic(5, k, 180);
    FiveToThe180();
    PowersOfBase(15);
    ShortNumber(s, 0, Pow(2, 480), 15);
  }

  lemma {:induction false} PowOfTwo(b: nat)
    ensures Pow(2, 0) == 1 && Pow(2, b + 1) == 2 * Pow(2, b)
    ensures b > 0 ==> Pow(2, b) == 2 * Pow(2, b - 1)
  {
  }

  /** The bits of e from the one worth m upwards. */
  function TopBits(e: nat, m: nat): nat
    requires m > 0
  {
    e / m
  }

  /** The exponent with one more bit, and the power it stands for. */
  lemma {:induction false} HalfStep(e: nat, m: nat)
    requires m > 0
    ensures var k, h := TopBits(e, m), TopBits(e, 2 * m);
            Pow(5, k) == if k % 2 != 0 then Pow(5, h) * Pow(5, h) * 5 else Pow(5, h) * Pow(5, h)
  {
    hide Pow;
    DivModEquation(e, m);
    HalfQuotient(e, m, e / m, e % m);
    assert TopBits(e, 2 * m) == TopBits(e, m) / 2;
    hide TopBits;
    SquareOfHalf(TopBits(e, m), TopBits(e, 2 * m));
  }

  lemma {:induction false} HalfQuotient(e: nat, m: nat, q: nat, r: nat)
    requires m > 0 && e == q * m + r && r < m
    ensures e / (2 * m) == q / 2
  {
    var h := q / 2;
    if q == 2 * h {
      HalfArithmetic(h, m, 0);
      DivModUnique(e, 2 * m, h, r);
    } else {
      HalfArithmetic(h, m, 1);
      DivModUnique(e, 2 * m, h, m + r);
    }
  }

  lemma {:induction false} HalfArithmetic(h: int, m: int, o: int)
    ensures (2 * h + o) * m == h * (2 * m) + o * m
  {
  }

  lemma {:induction false} SquareOfHalf(q: nat, h: nat)
    requires h == q / 2
    ensures Pow(5, q) == if q % 2 != 0 then Pow(5, h) * Pow(5, h) * 5 else Pow(5, h) * Pow(5, h)
  {
    PowAdd(5, h, h);
    if q % 2 != 0 {
      assert q == h + h + 1;
      assert Pow(5, q) == 5 * Pow(5, h + h);
    } else {
      assert q == h + h;
    }
  }

  lemma {:induction false} Pow5Start(e: nat, m: nat)
    requires 0 < m <= e < 2 * m
    ensures Pow(5, TopBits(e, m)) == 5
  {
    DivModUnique(e, m, 1, e - m);
    assert Pow(5, 1) == 5;
  }

  lemma {:induction false} SameNumber(s: seq<Limb>, t: seq<Limb>, e: nat)
    requires Val(s) == Val(t)
    ensures Num(s, e) == Num(t, e)
  {
  }

  lemma {:induction false} ZeroNumber(e: nat)
    ensures Num([0], e) == 0
  {
    assert Val([0]) == 0;
  }

  /** An operand the comparisons are told apart by length: normalised, or no longer than the other. */
  ghost predicate NotOverlong(n: Bigint, other: Bigint)
    reads n, other
  {
    |n.bigits| > 0 && (n.Normalised() || n.NumBigits() <= other.NumBigits())
  }

  /**
   * The sign of the difference, except that equal numbers with different exponents are told apart by how many
   * limbs they store.
   */
  method Compare(lhs: Bigint, rhs: Bigint) returns (c: int)
    requires rhs.Normalised() && NotOverlong(lhs, rhs)
    ensures lhs.Value() != rhs.Value() || lhs.exp == rhs.exp ==> c == Sign(lhs.Value() - rhs.Value())
    ensures lhs.Value() == rhs.Value() ==> c == Sign(rhs.exp - lhs.exp)
  {
    ghost var l, r := lhs.bigits, rhs.bigits;
    assert lhs.Value() == Num(l, lhs.exp) && rhs.Value() == Num(r, rhs.exp);
    hide Pow, Val, Num, Bigint.Value;
    var ln, rn := lhs.NumBigits(), rhs.NumBigits();
    if ln != rn {
      LengthDecides(lhs.bigits, lhs.exp, rhs.bigits, rhs.exp);
      return if ln > rn then 1 else -1;
    }
    var i, j := |lhs.bigits| - 1, |rhs.bigits| - 1;
    var end := i - j;
    if end < 0 {
      end := 0;
    }
    while i >= end
      invariant end - 1 <= i < |l| && -1 <= j < |r| && i + lhs.exp == j + rhs.exp
      invariant l[i + 1..] == r[j + 1..]
      decreases i
    {
      var a, b := lhs.bigits[i], rhs.bigits[j];
      if a != b {
        if a > b {
          MismatchDecides(l, lhs.exp, i, r, rhs.exp, j);
          return 1;
        }
        MismatchDecides(r, rhs.exp, j, l, lhs.exp, i);
        return -1;
      }
      assert l[i..] == [a] + l[i + 1..] && r[j..] == [b] + r[j + 1..];
      i, j := i - 1, j - 1;
    }
    LongerIsLarger(l, lhs.exp, r, rhs.exp, i, j);
    if i != j {
      return if i > j then 1 else -1;
    }
    return 0;
  }

  lemma {:induction false} LengthDecides(l: seq<Limb>, le: nat, r: seq<Limb>, re: nat)
    requires |l| > 0 && |r| > 0 && r[|r| - 1] != 0
    requires |l| + le != |r| + re
    requires |l| + le > |r| + re ==> l[|l| - 1] != 0
    ensures Sign(Num(l, le) - Num(r, re)) == if |l| + le > |r| + re then 1 else -1
  {
    ValueBounds(l, le);
    ValueBounds(r, re);
    hide Pow, Val, Num;
    if |l| + le > |r| + re {
      PowMonotonic(BASE, |r| + re, |l| + le - 1);
    } else {
      PowMonotonic(BASE, |l| + le, |r| + re - 1);
    }
  }

  /** With equal limbs down to the end of one number, the one with limbs left is not the smaller one. */
  lemma {:induction false} LongerIsLarger(l: seq<Limb>, le: nat, r: seq<Limb>, re: nat, i: int, j: int)
    requires -1 <= i < |l| && -1 <= j < |r| && (i == -1 || j == -1) && i + le == j + re && l[i + 1..] == r[j + 1..]
    ensures i >= j ==> Num(l, le) >= Num(r, re)
    ensures i <= j ==> Num(l, le) <= Num(r, re)
  {
    hide Num;
    assert r[0..] == r && l[0..] == l;
    if j == -1 {
      PrefixDecides(l, le, i + 1, r, re);
      EmptyPrefix(l, i + 1, le);
    }
    if i == -1 {
      PrefixDecides(r, re, j + 1, l, le);
      EmptyPrefix(r, j + 1, re);
    }
  }

  lemma {:induction false} EmptyPrefix(s: seq<Limb>, k: nat, e: nat)
    requires k <= |s|
    ensures Num(s[..k], e) >= 0
    ensures k == 0 ==> Num(s[..k], e) == 0
  {
  }

  /** The sign of lhs1 + lhs2 - rhs, whatever the exponents, found from the top with early exits. */
  method AddCompare(lhs1: Bigint, lhs2: Bigint, rhs: Bigint) returns (c: int)
    requires rhs.Normalised() && NotOverlong(lhs1, rhs) && NotOverlong(lhs2, rhs)
    ensures c == Sign(lhs1.Value() + lhs2.Value() - rhs.Value())
  {
    hide Pow, Val, Num, Upper, GetBigit;
    ghost var a, b, r := lhs1.bigits, lhs2.bigits, rhs.bigits;
    ghost var x, y, z := lhs1.exp, lhs2.exp, rhs.exp;
    var maxLhs := if lhs1.NumBigits() > lhs2.NumBigits() then lhs1.NumBigits() else lhs2.NumBigits();
    var num := rhs.NumBigits();
    if maxLhs + 1 < num {
      ShortSum(a, x, b, y, r, z);
      return -1;
    }
    if maxLhs > num {
      if lhs1.NumBigits() > num {
        LengthDecides(a, x, r, z);
      } else {
        LengthDecides(b, y, r, z);
      }
      return 1;
    }
    var borrow: int := 0;
    var minExp := Min(Min(lhs1.exp, lhs2.exp), rhs.exp);
    var i: int := num - 1;
    UpperAtTop(a, x, num);
    UpperAtTop(b, y, num);
    UpperAtTop(r, z, num);
    ghost var d: int := 0;
    while i >= minExp
      invariant minExp - 1 <= i < num
      invariant d == Upper(r, z, i + 1) - Upper(a, x, i + 1) - Upper(b, y, i + 1)
      invariant 0 <= d <= 1 && borrow == d * BASE
      decreases i
    {
      UpperStep(a, x, i);
      UpperStep(b, y, i);
      UpperStep(r, z, i);
      Decide(a, x, b, y, r, z, i);
      var sum: int := GetBigit(lhs1.bigits, lhs1.exp, i) + GetBigit(lhs2.bigits, lhs2.exp, i);
      var rhsBigit: int := GetBigit(rhs.bigits, rhs.exp, i);
      d := Upper(r, z, i) - Upper(a, x, i) - Upper(b, y, i);
      if sum > rhsBigit + borrow {
        return 1;
      }
      borrow := rhsBigit + borrow - sum;
      if borrow > 1 {
        return -1;
      }
      borrow := borrow * BASE;
      i := i - 1;
    }
    UpperBelow(a, x, minExp);
    UpperBelow(b, y, minExp);
    UpperBelow(r, z, minExp);
    LastBorrow(Upper(a, x, minExp), Upper(b, y, minExp), Upper(r, z, minExp), Pow(BASE, minExp));
    return if borrow != 0 then -1 else 0;
  }

  lemma {:induction false} UpperAtTop(s: seq<Limb>, e: nat, i: nat)
    requires |s| + e <= i
    ensures Upper(s, e, i) == 0
  {
  }

  lemma {:induction false} UpperStep(s: seq<Limb>, e: nat, i: nat)
    ensures Upper(s, e, i) == GetBigit(s, e, i) + BASE * Upper(s, e, i + 1)
  {
  }

  lemma {:induction false} Decide(a: seq<Limb>, x: nat, b: seq<Limb>, y: nat, r: seq<Limb>, z: nat, i: nat)
    requires |a| > 0 && |b| > 0 && |r| > 0
    ensures var d := Upper(r, z, i) - Upper(a, x, i) - Upper(b, y, i);
            var v := Num(a, x) + Num(b, y) - Num(r, z);
            (d < 0 ==> v > 0) && (d > 1 ==> v < 0)
  {
    hide Pow, Val, Num, Upper;
    UpperApproximates(a, x, i);
    UpperApproximates(b, y, i);
    UpperApproximates(r, z, i);
    UnitsDecide(Num(a, x), Num(b, y), Num(r, z),
                Upper(a, x, i), Upper(b, y, i), Upper(r, z, i), Pow(BASE, i));
  }

  lemma {:induction false} ShortSum(a: seq<Limb>, x: nat, b: seq<Limb>, y: nat, r: seq<Limb>, z: nat)
    requires |r| > 0 && r[|r| - 1] != 0
    requires |a| + x + 1 < |r| + z && |b| + y + 1 < |r| + z
    ensures Num(a, x) + Num(b, y) < Num(r, z)
  {
    var n := |r| + z;
    assert Pow(BASE, n - 1) == BASE * Pow(BASE, n - 2);
    hide Pow, Val, Num;
    ValueBounds(a, x);
    ValueBounds(b, y);
    ValueBounds(r, z);
    PowMonotonic(BASE, |a| + x, n - 2);
    PowMonotonic(BASE, |b| + y, n - 2);
  }

  lemma {:induction false} LastBorrow(ua: int, ub: int, ur: int, p: int)
    requires p > 0 && 0 <= ur - ua - ub <= 1
    ensures Sign(ua * p + ub * p - ur * p) == -(ur - ua - ub)
  {
    Distribute(ua, ub, p);
    Distribute(ua + ub, ur, p);
    if ur - ua - ub == 1 {
      assert (ua + ub - ur) * p == -p;
    } else {
      assert (ua + ub - ur) * p == 0;
    }
  }

  /**
   * Of two representations of one number, one whose lowest limb is not zero has the larger exponent. So division by
   * such a divisor is always right, and comparison with it.
   */
  lemma {:induction false} NonZeroLowLimb(s: seq<Limb>, e: nat, t: seq<Limb>, f: nat)
    requires |t| > 0 && t[0] != 0 && Num(s, e) == Num(t, f)
    ensures e <= f
  {
    if e > f {
      hide Pow, Val;
      ValHead(t);
      PowStep(BASE, e - f);
      PowAdd(BASE, e - f, f);
      SameUnits(Val(s), Pow(BASE, e), Pow(BASE, e - f), Pow(BASE, f), Val(t));
      hide Num;
      MultipleOfBase(Val(s), Pow(BASE, e - f), Pow(BASE, e - f - 1), t[0], Val(t[1..]));
    }
  }

  lemma {:induction false} ValHead(t: seq<Limb>)
    requires |t| > 0
    ensures Val(t) == t[0] + BASE * Val(t[1..])
  {
  }

  lemma {:induction false} SameUnits(a: int, u: int, p: int, q: int, b: int)
    requires a * u == b * q && u == p * q && q > 0
    ensures a * p == b
  {
    MulAssoc(a, p, q);
    SameMultiple(a * p, b, q);
  }

  lemma {:induction false} MultipleOfBase(a: int, p: int, p': int, d: Limb, y: int)
    requires a * p == d + BASE * y && p == BASE * p'
    ensures d == 0
  {
    MulSwap(BASE, a, p');
    MulAssoc(a, BASE, p');
    LowLimbOfMultiple(d, y, a * p');
  }

  lemma {:induction false} LowLimbOfMultiple(d: Limb, y: int, x: int)
    requires d + BASE * y == BASE * x
    ensures d == 0
  {
    assert BASE * (x - y) == d;
  }
}
