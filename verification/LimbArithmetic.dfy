/** What one step of each limb loop of the big integer does to the number the limbs stand for. */
module LimbArithmetic {
  import opened Positional

  const WORD: nat := 0x1_0000_0000_0000_0000  // 2^64

  /** The number stored by limbs s with exponent e. */
  ghost function Num(s: seq<Limb>, e: nat): nat {
    Val(s) * Pow(BASE, e)
  }

  /** The low 32 bits of a wider value, and the bits above them. */
  function Low(x: nat): Limb {
    x % BASE
  }

  function High(x: nat): nat {
    x / BASE
  }

  function Min(a: nat, b: nat): nat {
    if a < b then a else b
  }

  function Sign(x: int): int {
    if x > 0 then 1 else if x < 0 then -1 else 0
  }

  /** Multiplying b by v has been done up to limb i, giving s, with `carry` left over. */
  ghost predicate Carried(s: seq<Limb>, b: seq<Limb>, i: nat, v: nat, carry: nat) {
    && i <= |b| == |s|
    && s[i..] == b[i..]
    && Val(s[..i]) + Pow(BASE, i) * carry == Val(b[..i]) * v
  }

  lemma {:induction false} CarryStart(b: seq<Limb>, v: nat)
    ensures Carried(b, b, 0, v, 0)
  {
    assert b[..0] == [];
  }

  lemma {:induction false} CarryStep(s: seq<Limb>, b: seq<Limb>, i: nat, v: nat, carry: nat, d: Limb, carry': nat)
    requires i < |s| && Carried(s, b, i, v, carry)
    requires d + BASE * carry' == s[i] * v + carry
    ensures Carried(s[i := d], b, i + 1, v, carry')
  {
    var p := Pow(BASE, i);
    assert s[i] == s[i..][0] == b[i..][0] == b[i];
    assert s[i := d][..i + 1] == s[..i] + [d];
    assert s[i := d][i + 1..] == s[i..][1..] == b[i..][1..] == b[i + 1..];
    assert b[..i + 1] == b[..i] + [b[i]];
    ValSnoc(s[..i], d);
    ValSnoc(b[..i], b[i]);
    CarryArithmetic(Val(s[..i]), Val(b[..i]), p, v, b[i], carry, d, carry');
  }

  lemma {:induction false} CarryArithmetic(x: int, y: int, p: int, v: int, a: int, carry: int, d: int, carry': int)
    requires x + p * carry == y * v && d + BASE * carry' == a * v + carry
    ensures x + p * d + BASE * p * carry' == (y + p * a) * v
  {
    calc {
      x + p * d + BASE * p * carry';
      { MulAssoc(p, BASE, carry'); Distribute(d, BASE * carry', p); }
      x + p * (a * v + carry);
      { Distribute(a * v, carry, p); }
      y * v + p * (a * v);
      { MulAssoc(p, a, v); Distribute(y, p * a, v); }
      (y + p * a) * v;
    }
  }

  /** A limb product plus carry fits 64 bits, and what is carried on fits 32. */
  lemma {:induction false} ProductFits(a: nat, v: nat, c: nat)
    requires a < BASE && v < BASE && c < BASE
    ensures a * v + c < WORD && High(a * v + c) < BASE
    ensures a * v + c == Low(a * v + c) + BASE * High(a * v + c)
  {
    MulMonotonic(a, BASE - 1, v);
    MulMonotonic(v, BASE - 1, BASE - 1);
  }

  /** With a 64-bit factor the new carry just fits 64 bits. */
  lemma {:induction false} WideProductFits(a: nat, value: nat, c: nat)
    requires a < BASE && value < WORD && c < WORD
    ensures var r := a * Low(value) + Low(c);
            var c' := a * High(value) + High(r) + High(c);
            r < WORD && c' < WORD && Low(r) + BASE * c' == a * value + c
  {
    var l, h := Low(value), High(value);
    ProductFits(a, l, Low(c));
    ProductFits(a, h, 0);
    MulMonotonic(a, BASE - 1, h);
    MulMonotonic(h, BASE - 1, BASE - 1);
    assert a * value == a * l + BASE * (a * h) by {
      assert value == l + BASE * h;
      Distribute(l, BASE * h, a);
      MulAssoc(a, BASE, h);
      MulAssoc(BASE, a, h);
    }
  }

  /** Shifting one limb left by s < 32 bits keeps its low part clear of the incoming carry. */
  lemma {:induction false} ShiftStep(a: Limb, s: nat, carry: nat)
    requires 0 < s < 32 && carry < Pow(2, s)
    ensures var d := Low(a * Pow(2, s)) + carry;
            var c := a / Pow(2, 32 - s);
            d < BASE && c < Pow(2, s) && c < BASE && d + BASE * c == a * Pow(2, s) + carry
  {
    PowAdd(2, s, 32 - s);
    Pow2At32();
    ShiftArithmetic(a, Pow(2, s), Pow(2, 32 - s), carry);
  }

  lemma {:induction false} ShiftArithmetic(a: Limb, p: nat, q: nat, carry: nat)
    requires p > 0 && q > 0 && p * q == BASE && carry < p
    ensures var d := Low(a * p) + carry;
            d < BASE && a / q < p && a / q < BASE && d + BASE * (a / q) == a * p + carry
  {
    var c, r := a / q, a % q;
    DivModEquation(a, q);
    assert a * p == c * BASE + r * p by {
      Distribute(c * q, r, p);
      MulAssoc(c, q, p);
    }
    assert 0 <= r * p <= BASE - p by {
      MulMonotonic(r + 1, q, p);
      Distribute(r, 1, p);
    }
    DivModUnique(a * p, BASE, c, r * p);
    if c >= p {
      MulMonotonic(p, c, q);
    }
  }

  lemma {:induction false} Pow2At32()
    ensures Pow(2, 32) == BASE
  {
    PowAdd(2, 16, 16);
    PowAdd(2, 8, 8);
    assert Pow(2, 4) == 16;
    PowAdd(2, 4, 4);
  }

  /** The top limb is non-zero exactly when the number needs all its limbs. */
  lemma {:induction false} TopLimb(s: seq<Limb>)
    requires |s| > 0
    ensures s[|s| - 1] != 0 <==> Val(s) >= Pow(BASE, |s| - 1)
  {
    ValTop(s);
    ValBound(s[..|s| - 1]);
  }

  /** What appending the last carry does to value and top limb. */
  lemma {:induction false} FinishCarry(b: seq<Limb>, s: seq<Limb>, carry: Limb, v: nat)
    requires v > 0 && Carried(s, b, |b|, v, carry)
    ensures var r := if carry != 0 then s + [carry] else s;
            Val(r) == Val(b) * v
            && (|b| > 0 && b[|b| - 1] != 0 ==> r[|r| - 1] != 0)
  {
    assert s[..|b|] == s && b[..|b|] == b;
    ValSnoc(s, carry);
    if |b| > 0 && b[|b| - 1] != 0 && carry == 0 {
      TopLimb(b);
      TopLimb(s);
      MulGrows(Val(b), v);
    }
  }

  /** Scaling the limbs' number scales the number. */
  lemma {:induction false} NumScale(b: seq<Limb>, r: seq<Limb>, v: nat, e: nat)
    requires Val(r) == Val(b) * v
    ensures Num(r, e) == Num(b, e) * v
  {
    MulSwap(Val(b), v, Pow(BASE, e));
  }

  lemma {:induction false} ValOfZeroes(s: seq<Limb>, k: nat)
    requires k <= |s| && forall i :: k <= i < |s| ==> s[i] == 0
    ensures Val(s) == Val(s[..k])
    decreases |s|
  {
    if k < |s| {
      ValTop(s);
      ValOfZeroes(s[..|s| - 1], k);
      assert s[..|s| - 1][..k] == s[..k];
    } else {
      assert s[..k] == s;
    }
  }

  /** `other` subtracted with borrow: one limb. */
  lemma {:induction false} BorrowStep(a: Limb, other: Limb, borrow: nat)
    requires borrow <= 1
    ensures var r := (a - other - borrow) % WORD;
            var borrow' := r / 0x8000_0000_0000_0000;
            borrow' <= 1 && Low(r) - BASE * borrow' == a - other - borrow
            && (borrow' == 1 <==> a < other + borrow)
  {
    var x := a - other - borrow;
    if x >= 0 {
      assert x % WORD == x;
    } else {
      assert x % WORD == x + WORD;
    }
  }

  /** The first j limbs of o, moved up by off limbs, have been taken from b, giving s, with `borrow` owed. */
  ghost predicate Borrowed(s: seq<Limb>, b: seq<Limb>, o: seq<Limb>, off: nat, j: nat, borrow: nat) {
    && off + j <= |b| == |s| && j <= |o| && borrow <= 1
    && s[off + j..] == b[off + j..]
    && Val(s[..off + j]) - Pow(BASE, off + j) * borrow == Val(b[..off + j]) - Num(o[..j], off)
  }

  lemma {:induction false} BorrowStart(b: seq<Limb>, o: seq<Limb>, off: nat)
    requires off <= |b|
    ensures Borrowed(b, b, o, off, 0, 0)
  {
    assert o[..0] == [];
  }

  lemma {:induction false} SubtractStep(s: seq<Limb>, b: seq<Limb>, o: seq<Limb>, off: nat, j: nat, borrow: nat,
                                        d: Limb, borrow': nat)
    requires j < |o| && off + j < |s| && borrow' <= 1 && Borrowed(s, b, o, off, j, borrow)
    requires d - BASE * borrow' == s[off + j] - o[j] - borrow
    ensures Borrowed(s[off + j := d], b, o, off, j + 1, borrow')
  {
    var i := off + j;
    var p := Pow(BASE, i);
    assert s[i] == s[i..][0] == b[i..][0] == b[i];
    assert s[i := d][..i + 1] == s[..i] + [d];
    assert s[i := d][i + 1..] == s[i..][1..] == b[i..][1..] == b[i + 1..];
    assert b[..i + 1] == b[..i] + [b[i]];
    assert o[..j + 1] == o[..j] + [o[j]];
    ValSnoc(s[..i], d);
    ValSnoc(b[..i], b[i]);
    ValSnoc(o[..j], o[j]);
    PowAdd(BASE, off, j);
    SubtractArithmetic(Val(s[..i]), Val(b[..i]), Val(o[..j]), p, Pow(BASE, off), Pow(BASE, j), b[i], o[j], borrow, d,
                       borrow');
  }

  lemma {:induction false} SubtractArithmetic(x: int, y: int, z: int, p: int, q: int, r: int, a: int, o: int,
                                              borrow: int, d: int, borrow': int)
    requires x - p * borrow == y - z * q && p == q * r
    requires d - BASE * borrow' == a - o - borrow
    ensures x + p * d - BASE * p * borrow' == y + p * a - (z + r * o) * q
  {
    calc {
      x + p * d - BASE * p * borrow';
      { MulAssoc(p, BASE, borrow'); Distribute(d, BASE * borrow', p); }
      x + p * (a - o - borrow);
      { Distribute(a - o, borrow, p); Distribute(a, o, p); }
      y - z * q + p * a - p * o;
      { MulAssoc(q, r, o); Distribute(z, r * o, q); }
      y + p * a - (z + r * o) * q;
    }
  }

  /** How many limbs a number has bounds its value, on both sides if the top limb is non-zero. */
  lemma {:induction false} ValueBounds(s: seq<Limb>, e: nat)
    ensures Num(s, e) < Pow(BASE, |s| + e)
    ensures |s| > 0 && s[|s| - 1] != 0 ==> Num(s, e) >= Pow(BASE, |s| + e - 1)
  {
    var p := Pow(BASE, e);
    ValBound(s);
    PowAdd(BASE, |s|, e);
    MulMonotonic(Val(s) + 1, Pow(BASE, |s|), p);
    Distribute(Val(s), 1, p);
    if |s| > 0 && s[|s| - 1] != 0 {
      TopLimb(s);
      PowAdd(BASE, |s| - 1, e);
      MulMonotonic(Pow(BASE, |s| - 1), Val(s), p);
    }
  }

  /** A number not below a normalised one has at least as many limbs. */
  lemma {:induction false} LongerThanSubtrahend(s: seq<Limb>, e: nat, o: seq<Limb>, oe: nat)
    requires |o| > 0 && o[|o| - 1] != 0 && Num(s, e) >= Num(o, oe)
    ensures |o| + oe <= |s| + e
  {
    ValueBounds(s, e);
    ValueBounds(o, oe);
    hide Val, Pow, Num;
    if |s| + e < |o| + oe {
      PowMonotonic(BASE, |s| + e, |o| + oe - 1);
    }
  }

  /** Comparing differences of aligned numbers with or without the common power of the base. */
  lemma {:induction false} ScaledDifference(s: seq<Limb>, o: seq<Limb>, off: nat, e: nat, r: seq<Limb>)
    ensures Num(r, e) == Num(s, e) - Num(o, off + e) <==> Val(r) == Val(s) - Num(o, off)
    ensures Num(s, e) >= Num(o, off + e) <==> Val(s) >= Num(o, off)
  {
    PowAdd(BASE, off, e);
    MulAssoc(Val(o), Pow(BASE, off), Pow(BASE, e));
    DifferenceArithmetic(Val(s), Num(o, off), Val(r), Pow(BASE, e));
  }

  lemma {:induction false} DifferenceArithmetic(x: nat, w: nat, z: nat, p: nat)
    requires p > 0
    ensures z * p == x * p - w * p <==> z == x - w
    ensures x * p >= w * p <==> x >= w
  {
    Distribute(x, w, p);
    SameMultiple(z, x - w, p);
    if x >= w {
      MulMonotonic(w, x, p);
    } else {
      UnitsOrdered(x, w, p);
    }
  }

  lemma {:induction false} SameMultiple(a: int, b: int, p: int)
    requires p > 0
    ensures a * p == b * p <==> a == b
  {
    Distribute(a, b, p);
    if a * p == b * p {
      SmallMultiple(a - b, p);
    }
  }

  /** What the borrow left after the last limb of o says, for a difference that is not negative. */
  lemma {:induction false} FinalBorrow(b: seq<Limb>, s: seq<Limb>, o: seq<Limb>, off: nat, borrow: nat)
    requires Borrowed(s, b, o, off, |o|, borrow)
    requires Val(b) >= Num(o, off)
    ensures borrow == 0 <==> Val(b[..off + |o|]) >= Num(o, off)
    ensures Val(s) == Val(b) - Num(o, off) + if borrow == 1 then Pow(BASE, off + |o|) else 0
    ensures off + |o| == |s| ==> borrow == 0
    ensures off + |o| < |s| ==> b[off + |o|] == s[off + |o|]
  {
    var k := off + |o|;
    ValSplit(b, k);
    ValSplit(s, k);
    assert Val([]) == 0;
    assert k == |s| ==> b[k..] == [];
    assert k < |s| ==> b[k] == b[k..][0] == s[k..][0] == s[k];
    assert o[..|o|] == o;
    FinalBorrowArithmetic(Val(b[..k]), Val(s[..k]), Pow(BASE, k), Val(b[k..]), borrow, Num(o, off));
  }

  lemma {:induction false} FinalBorrowArithmetic(x: nat, y: nat, p: nat, t: nat, borrow: nat, w: nat)
    requires borrow <= 1 && y < p && y - p * borrow == x - w && x + p * t >= w
    ensures borrow == 0 <==> x >= w
    ensures y + p * t == x + p * t - w + if borrow == 1 then p else 0
    ensures t == 0 ==> borrow == 0
  {
    if borrow == 1 {
      assert p * borrow == p;
    } else {
      assert p * borrow == 0;
    }
    if t == 0 {
      assert p * t == 0;
    }
  }

  lemma {:induction false} ReplaceLimb(s: seq<Limb>, k: nat, d: Limb)
    requires k < |s|
    ensures Val(s[k := d]) == Val(s) + Pow(BASE, k) * (d - s[k])
  {
    var t := s[k := d];
    ValSplit(s, k);
    ValSplit(t, k);
    assert s[..k] == t[..k] && s[k..][1..] == t[k..][1..];
    assert Val(t[k..]) == Val(s[k..]) + d - s[k];
    Distribute(Val(s[k..]), d - s[k], Pow(BASE, k));
  }

  // ----- Comparing numbers limb by limb from the top -----

  /** The number as its lower limbs plus its upper ones, the common power of the base included. */
  lemma {:induction false} ScaledSplit(s: seq<Limb>, e: nat, k: nat)
    requires k <= |s|
    ensures Num(s, e) == Num(s[..k], e) + Num(s[k..], k + e)
    ensures Num(s[..k], e) < Pow(BASE, k + e)
  {
    ValSplit(s, k);
    ValueBounds(s[..k], e);
    PowAdd(BASE, k, e);
    SplitArithmetic(Val(s[..k]), Val(s[k..]), Pow(BASE, k), Pow(BASE, e));
  }

  lemma {:induction false} SplitArithmetic(l: int, h: int, p: int, q: int)
    ensures (l + p * h) * q == l * q + h * (p * q)
  {
    Distribute(l, p * h, q);
    MulAssoc(h, p, q);
  }

  /** Equal limbs above one position, and a larger limb there, decide the comparison. */
  lemma {:induction false} MismatchDecides(s: seq<Limb>, e: nat, i: nat, t: seq<Limb>, f: nat, j: nat)
    requires i < |s| && j < |t| && i + e == j + f
    requires s[i + 1..] == t[j + 1..] && s[i] > t[j]
    ensures Num(s, e) > Num(t, f)
  {
    ScaledSplit(s, e, i);
    ScaledSplit(t, f, j);
    assert s[i..][1..] == s[i + 1..] && t[j..][1..] == t[j + 1..];
    assert Val(s[i..]) >= Val(t[j..]) + 1;
    hide Val, Pow, Num;
    UnitsOrdered(Val(t[j..]), Val(s[i..]), Pow(BASE, i + e));
  }

  lemma {:induction false} UnitsOrdered(a: nat, b: nat, p: nat)
    requires a < b
    ensures a * p + p <= b * p
  {
    MulMonotonic(a + 1, b, p);
    Distribute(a, 1, p);
  }

  /** With all limbs of t equal to the top limbs of s, the rest of s is the difference. */
  lemma {:induction false} PrefixDecides(s: seq<Limb>, e: nat, k: nat, t: seq<Limb>, f: nat)
    requires k <= |s| && k + e == f && s[k..] == t
    ensures Num(s, e) == Num(s[..k], e) + Num(t, f)
  {
    ScaledSplit(s, e, k);
  }

  /** The limb at absolute position i; zero outside the stored limbs. */
  function GetBigit(s: seq<Limb>, e: nat, i: nat): Limb {
    if e <= i < |s| + e then s[i - e] else 0
  }

  /** The number's limbs from absolute position i up, in units of BASE^i. */
  ghost function Upper(s: seq<Limb>, e: nat, i: nat): nat
    decreases |s| + e - i
  {
    if i >= |s| + e then 0 else GetBigit(s, e, i) + BASE * Upper(s, e, i + 1)
  }

  lemma {:induction false} UpperAbove(s: seq<Limb>, e: nat, i: nat)
    requires e <= i <= |s| + e
    ensures Upper(s, e, i) == Val(s[i - e..])
    decreases |s| + e - i
  {
    if i < |s| + e {
      UpperAbove(s, e, i + 1);
      assert s[i - e..][1..] == s[i + 1 - e..];
    }
  }

  lemma {:induction false} UpperBelow(s: seq<Limb>, e: nat, i: nat)
    requires i <= e && |s| > 0
    ensures Upper(s, e, i) * Pow(BASE, i) == Num(s, e)
    decreases e - i
  {
    if i == e {
      UpperAbove(s, e, i);
      assert s[0..] == s;
    } else {
      UpperBelow(s, e, i + 1);
      MulAssoc(Upper(s, e, i + 1), BASE, Pow(BASE, i));
    }
  }

  /** The upper limbs are the number up to less than one unit. */
  lemma {:induction false} UpperApproximates(s: seq<Limb>, e: nat, i: nat)
    requires |s| > 0
    ensures 0 <= Num(s, e) - Upper(s, e, i) * Pow(BASE, i) < Pow(BASE, i)
  {
    if i <= e {
      UpperBelow(s, e, i);
    } else if i <= |s| + e {
      UpperAbove(s, e, i);
      ScaledSplit(s, e, i - e);
    } else {
      assert Upper(s, e, i) == 0;
      hide Pow, Val, Num, Upper;
      ValueBounds(s, e);
      PowMonotonic(BASE, |s| + e, i);
    }
  }

  /** Two sums approximated to less than one unit per number are ordered once their units differ enough. */
  lemma {:induction false} UnitsDecide(a: nat, b: nat, r: nat, ua: nat, ub: nat, ur: nat, p: nat)
    requires p > 0
    requires 0 <= a - ua * p < p && 0 <= b - ub * p < p && 0 <= r - ur * p < p
    ensures ua + ub > ur ==> a + b > r
    ensures ur - ua - ub > 1 ==> a + b < r
  {
    Distribute(ua, ub, p);
    if ua + ub > ur {
      MulMonotonic(ur + 1, ua + ub, p);
      Distribute(ur, 1, p);
    }
    if ur - ua - ub > 1 {
      MulMonotonic(ua + ub + 2, ur, p);
      Distribute(ua + ub, 2, p);
    }
  }
}
