/** Powers, and numbers written as sequences of 32-bit limbs, least significant limb first. */
module Positional {
  const BASE: nat := 0x1_0000_0000

  /** One big digit (`bigit`) of the bundled fmt library: an unsigned 32-bit value. */
  type Limb = x: int | 0 <= x < 0x1_0000_0000

  function Pow(b: nat, e: nat): (p: nat)
    ensures b > 0 ==> p > 0
  {
    if e == 0 then 1 else b * Pow(b, e - 1)
  }

  lemma {:induction false} PowStep(b: nat, e: nat)
    requires e > 0
    ensures Pow(b, e) == b * Pow(b, e - 1)
  {
  }

  /** The number a limb sequence stands for. */
  function Val(s: seq<Limb>): nat {
    if |s| == 0 then 0 else s[0] + BASE * Val(s[1..])
  }

  lemma {:induction false} PowAdd(b: nat, m: nat, n: nat)
    ensures Pow(b, m + n) == Pow(b, m) * Pow(b, n)
  {
    if m > 0 {
      PowAdd(b, m - 1, n);
      assert Pow(b, m + n) == b * Pow(b, m - 1 + n) && Pow(b, m) == b * Pow(b, m - 1);
      hide Pow;
      MulAssoc(b, Pow(b, m - 1), Pow(b, n));
    }
  }

  lemma {:induction false} PowOfProduct(a: nat, b: nat, n: nat)
    ensures Pow(a * b, n) == Pow(a, n) * Pow(b, n)
  {
    if n > 0 {
      hide Pow;
      PowOfProduct(a, b, n - 1);
      PowStep(a * b, n);
      PowStep(a, n);
      PowStep(b, n);
      ProductOfProducts(a, b, Pow(a, n - 1), Pow(b, n - 1));
    }
  }

  lemma {:induction false} ProductOfProducts(a: int, b: int, x: int, y: int)
    ensures (a * b) * (x * y) == (a * x) * (b * y)
  {
    MulAssoc(a * b, x, y);
    MulAssoc(a * x, b, y);
    MulSwap(a, b, x);
  }

  lemma {:induction false} MulSwap(a: int, b: int, c: int)
    ensures a * b * c == a * c * b
  {
    MulAssoc(a, b, c);
    MulAssoc(a, c, b);
  }

  lemma {:induction false} PowOfPow(b: nat, m: nat, n: nat)
    ensures Pow(Pow(b, m), n) == Pow(b, m * n)
  {
    assert Pow(Pow(b, m), 0) == 1 && Pow(b, 0) == 1;
    hide Pow;
    if n == 0 {
      assert m * n == 0;
    } else {
      PowOfPow(b, m, n - 1);
      PowStep(Pow(b, m), n);
      assert m * n == m + m * (n - 1);
      PowAdd(b, m, m * (n - 1));
    }
  }

  lemma {:induction false} PowMonotonic(b: nat, m: nat, n: nat)
    requires b > 0 && m <= n
    ensures Pow(b, m) <= Pow(b, n)
  {
    PowAdd(b, m, n - m);
    MulGrows(Pow(b, m), Pow(b, n - m));
  }

  lemma {:induction false} PowStrict(b: nat, m: nat, n: nat)
    requires b > 1 && m < n
    ensures Pow(b, m) < Pow(b, n)
  {
    PowMonotonic(b, m + 1, n);
    MulMonotonic(2, b, Pow(b, m));
  }

  lemma {:induction false} PowLeft(a: nat, b: nat, n: nat)
    requires a <= b
    ensures Pow(a, n) <= Pow(b, n)
  {
    if n > 0 {
      PowLeft(a, b, n - 1);
      MulMonotonic(a, b, Pow(a, n - 1));
      MulMonotonic(Pow(a, n - 1), Pow(b, n - 1), b);
    }
  }

  lemma {:induction false} MulGrows(a: nat, b: nat)
    requires b > 0
    ensures a <= a * b
  {
  }

  lemma {:induction false} ValSnoc(s: seq<Limb>, d: Limb)
    ensures Val(s + [d]) == Val(s) + Pow(BASE, |s|) * d
  {
    if |s| == 0 {
      assert s + [d] == [d];
      assert [d][1..] == [];
    } else {
      ValSnoc(s[1..], d);
      assert (s + [d])[1..] == s[1..] + [d];
      MulAssoc(BASE, Pow(BASE, |s| - 1), d);
    }
  }

  lemma {:induction false} MulAssoc(a: int, b: int, c: int)
    ensures a * (b * c) == a * b * c
  {
  }

  lemma {:induction false} ValConcat(s: seq<Limb>, t: seq<Limb>)
    ensures Val(s + t) == Val(s) + Pow(BASE, |s|) * Val(t)
  {
    if |s| == 0 {
      assert s + t == t;
    } else {
      ValConcat(s[1..], t);
      assert (s + t)[1..] == s[1..] + t;
      MulAssoc(BASE, Pow(BASE, |s| - 1), Val(t));
    }
  }

  lemma {:induction false} ValBound(s: seq<Limb>)
    ensures Val(s) < Pow(BASE, |s|)
  {
    if |s| > 0 {
      ValBound(s[1..]);
    }
  }

  /** A non-zero top limb bounds the number from below. */
  lemma {:induction false} ValTop(s: seq<Limb>)
    requires |s| > 0
    ensures Val(s) == Val(s[..|s| - 1]) + Pow(BASE, |s| - 1) * s[|s| - 1]
    ensures s[|s| - 1] != 0 ==> Val(s) >= Pow(BASE, |s| - 1)
  {
    assert s == s[..|s| - 1] + [s[|s| - 1]];
    ValSnoc(s[..|s| - 1], s[|s| - 1]);
    if s[|s| - 1] != 0 {
      MulGrows(Pow(BASE, |s| - 1), s[|s| - 1]);
    }
  }

  /** Quotient and remainder are determined by the division equation. */
  lemma {:induction false} DivModUnique(v: nat, m: nat, q: int, r: int)
    requires m > 0 && 0 <= r < m && v == q * m + r
    ensures v / m == q && v % m == r
  {
    var d := v / m - q;
    DivModEquation(v, m);
    Distribute(v / m, q, m);
    assert d * m == r - v % m;
    SmallMultiple(d, m);
  }

  lemma {:induction false} DivModEquation(v: int, m: int)
    requires m > 0
    ensures v == v / m * m + v % m && 0 <= v % m < m
  {
  }

  lemma {:induction false} Distribute(a: int, b: int, c: int)
    ensures (a - b) * c == a * c - b * c
    ensures (a + b) * c == a * c + b * c
    ensures c * (a + b) == c * a + c * b
    ensures c * (a - b) == c * a - c * b
  {
  }

  /** A multiple of m strictly between -m and m is zero. */
  lemma {:induction false} SmallMultiple(d: int, m: int)
    requires m > 0 && -m < d * m < m
    ensures d == 0
  {
    if d >= 1 {
      MulMonotonic(1, d, m);
    } else if d <= -1 {
      MulMonotonic(d, -1, m);
    }
  }

  lemma {:induction false} MulMonotonic(a: int, b: int, m: int)
    requires a <= b && m >= 0
    ensures a * m <= b * m
  {
  }

  /** Splitting a number at limb k. */
  lemma {:induction false} ValSplit(s: seq<Limb>, k: nat)
    requires k <= |s|
    ensures Val(s) == Val(s[..k]) + Pow(BASE, k) * Val(s[k..])
    ensures Val(s[..k]) < Pow(BASE, k)
  {
    assert s == s[..k] + s[k..];
    ValConcat(s[..k], s[k..]);
    ValBound(s[..k]);
  }
}
