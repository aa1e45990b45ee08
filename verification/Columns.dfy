/** The schoolbook product as column sums: column c collects the limb products whose positions add up to c. */
module Columns {
  import opened Positional
  import opened LimbArithmetic

  function Digit(s: seq<Limb>, i: int): Limb {
    if 0 <= i < |s| then s[i] else 0
  }

  /** The terms of column c with the first index below i. */
  ghost function Partial(n: seq<Limb>, m: seq<Limb>, c: int, i: nat): nat {
    if i == 0 then 0 else Partial(n, m, c, i - 1) + Digit(n, i - 1) * Digit(m, c - (i - 1))
  }

  ghost function Column(n: seq<Limb>, m: seq<Limb>, c: nat): nat {
    Partial(n, m, c, c + 1)
  }

  /** The first k columns, each at its place value. */
  ghost function FirstColumns(n: seq<Limb>, m: seq<Limb>, k: nat): nat {
    if k == 0 then 0 else FirstColumns(n, m, k - 1) + Column(n, m, k - 1) * Pow(BASE, k - 1)
  }

  ghost function FirstDigits(m: seq<Limb>, k: nat): nat {
    if k == 0 then 0 else FirstDigits(m, k - 1) + Digit(m, k - 1) * Pow(BASE, k - 1)
  }

  lemma {:induction false} FirstDigitsIsVal(m: seq<Limb>, k: nat)
    ensures FirstDigits(m, k) == Val(if k <= |m| then m[..k] else m)
  {
    if k == 0 {
    } else {
      FirstDigitsIsVal(m, k - 1);
      if k <= |m| {
        assert m[..k] == m[..k - 1] + [m[k - 1]];
        ValSnoc(m[..k - 1], m[k - 1]);
      } else {
        assert m[..|m|] == m;
      }
    }
  }

  lemma {:induction false} PartialHead(n: seq<Limb>, m: seq<Limb>, c: int, i: nat)
    requires |n| > 0
    ensures Partial(n, m, c, i + 1) == n[0] * Digit(m, c) + Partial(n[1..], m, c - 1, i)
  {
    if i > 0 {
      PartialHead(n, m, c, i - 1);
      assert Digit(n, i) == Digit(n[1..], i - 1);
      assert c - i == c - 1 - (i - 1);
    }
  }

  lemma {:induction false} ColumnHead(n: seq<Limb>, m: seq<Limb>, c: nat)
    requires |n| > 0
    ensures Column(n, m, c) == n[0] * Digit(m, c) + if c == 0 then 0 else Column(n[1..], m, c - 1)
  {
    PartialHead(n, m, c, c);
  }

  lemma {:induction false} FirstColumnsHead(n: seq<Limb>, m: seq<Limb>, k: nat)
    requires |n| > 0
    ensures FirstColumns(n, m, k + 1) == n[0] * FirstDigits(m, k + 1) + BASE * FirstColumns(n[1..], m, k)
  {
    ColumnHead(n, m, k);
    var p, d := Pow(BASE, k), Digit(m, k);
    if k == 0 {
    } else {
      FirstColumnsHead(n, m, k - 1);
      HeadArithmetic(n[0], FirstDigits(m, k), FirstColumns(n[1..], m, k - 1), Pow(BASE, k - 1), d,
                     Column(n[1..], m, k - 1));
    }
  }

  lemma {:induction false} HeadArithmetic(a: int, ds: int, cs: int, q: int, d: int, x: int)
    ensures (a * ds + BASE * cs) + (a * d + x) * (BASE * q) == a * (ds + d * (BASE * q)) + BASE * (cs + x * q)
  {
    var p := BASE * q;
    Distribute(a * d, x, p);
    Distribute(ds, d * p, a);
    MulAssoc(a, d, p);
    Distribute(cs, x * q, BASE);
    MulAssoc(BASE, x, q);
    MulAssoc(x, BASE, q);
  }

  /** Enough columns add up to the product. */
  lemma {:induction false} ColumnsAreProduct(n: seq<Limb>, m: seq<Limb>, k: nat)
    requires k >= |n| + |m|
    ensures FirstColumns(n, m, k) == Val(n) * Val(m)
  {
    if |n| == 0 {
      NoColumns(n, m, k);
    } else {
      ColumnsAreProduct(n[1..], m, k - 1);
      FirstColumnsHead(n, m, k - 1);
      FirstDigitsIsVal(m, k);
      assert m[..|m|] == m;
      Distribute(n[0], BASE * Val(n[1..]), Val(m));
      MulAssoc(BASE, Val(n[1..]), Val(m));
    }
  }

  lemma {:induction false} NoColumns(n: seq<Limb>, m: seq<Limb>, k: nat)
    requires |n| == 0
    ensures FirstColumns(n, m, k) == 0
  {
    if k > 0 {
      NoColumns(n, m, k - 1);
      PartialPastEnd(n, m, k - 1, 0, k);
    }
  }

  lemma {:induction false} PartialStart(n: seq<Limb>, m: seq<Limb>, c: int)
    ensures Partial(n, m, c, 0) == 0
  {
  }

  lemma {:induction false} PartialStep(n: seq<Limb>, m: seq<Limb>, c: int, i: nat)
    ensures Partial(n, m, c, i + 1) == Partial(n, m, c, i) + Digit(n, i) * Digit(m, c - i)
  {
  }

  lemma {:induction false} PartialPastEnd(n: seq<Limb>, m: seq<Limb>, c: int, i: nat, k: nat)
    requires |n| <= i <= k
    ensures Partial(n, m, c, k) == Partial(n, m, c, i)
  {
    if i < k {
      PartialPastEnd(n, m, c, i, k - 1);
    }
  }

  lemma {:induction false} PartialZero(n: seq<Limb>, m: seq<Limb>, c: int, i: nat)
    requires c - i + 1 >= |m|
    ensures Partial(n, m, c, i) == 0
  {
    if i > 0 {
      PartialZero(n, m, c, i - 1);
    }
  }

  /** A column prefix of i terms is below i times 2^64. */
  lemma {:induction false} PartialBound(n: seq<Limb>, m: seq<Limb>, c: int, i: nat)
    ensures Partial(n, m, c, i) <= Min(i, |n|) * ((BASE - 1) * (BASE - 1))
  {
    if i > 0 {
      PartialBound(n, m, c, i - 1);
      var a, b := Digit(n, i - 1), Digit(m, c - (i - 1));
      if i <= |n| {
        MulMonotonic(a, BASE - 1, b);
        MulMonotonic(b, BASE - 1, BASE - 1);
      }
    }
  }

  /** The first k limbs of r, with `carry` above them, are the first k columns of n squared. */
  ghost predicate ColumnsDone(r: seq<Limb>, n: seq<Limb>, k: nat, carry: nat) {
    && k <= 2 * |n| == |r|
    && Val(r[..k]) + Pow(BASE, k) * carry == FirstColumns(n, n, k)
  }

  lemma {:induction false} ColumnsStart(r: seq<Limb>, n: seq<Limb>)
    requires |r| == 2 * |n|
    ensures ColumnsDone(r, n, 0, 0)
  {
    assert r[..0] == [];
  }

  lemma {:induction false} ColumnsStep(r: seq<Limb>, n: seq<Limb>, k: nat, carry: nat, d: Limb, carry': nat)
    requires k < 2 * |n| && ColumnsDone(r, n, k, carry) && carry <= |n| * BASE
    requires d + BASE * carry' == carry + Column(n, n, k)
    ensures ColumnsDone(r[k := d], n, k + 1, carry') && carry' <= |n| * BASE
  {
    var p := Pow(BASE, k);
    assert r[k := d][..k + 1] == r[..k] + [d];
    ValSnoc(r[..k], d);
    MulAssoc(p, BASE, carry');
    Distribute(d, BASE * carry', p);
    Distribute(carry, Column(n, n, k), p);
    PartialBound(n, n, k, k + 1);
    CarryStaysSmall(|n|, Min(k + 1, |n|), carry, Column(n, n, k), carry');
  }

  lemma {:induction false} CarryStaysSmall(n: nat, i: nat, carry: nat, column: nat, carry': nat)
    requires i <= n && carry <= n * BASE && column <= i * ((BASE - 1) * (BASE - 1))
    requires BASE * carry' <= carry + column
    ensures carry' <= n * BASE
  {
    assert column <= n * ((BASE - 1) * (BASE - 1));
  }

  lemma {:induction false} SquareIsExact(r: seq<Limb>, n: seq<Limb>, carry: nat, e: nat)
    requires ColumnsDone(r, n, 2 * |n|, carry)
    ensures Val(r) == Val(n) * Val(n)
    ensures Num(r, 2 * e) == Num(n, e) * Num(n, e)
  {
    ColumnsAreProduct(n, n, 2 * |n|);
    assert r[..2 * |n|] == r;
    ValBound(n);
    PowAdd(BASE, |n|, |n|);
    SquareBound(Val(n), Pow(BASE, |n|), carry, Val(r));
    PowAdd(BASE, e, e);
    SquareArithmetic(Val(n), Pow(BASE, e));
  }

  lemma {:induction false} SquareBound(v: nat, p: nat, carry: nat, r: nat)
    requires v < p && r + p * p * carry == v * v
    ensures carry == 0
  {
    MulMonotonic(v, p, v);
    MulMonotonic(v + 1, p, p);
    Distribute(v, 1, p);
    if carry > 0 {
      MulGrows(p * p, carry);
    }
  }

  lemma {:induction false} SquareArithmetic(v: int, q: int)
    ensures v * v * (q * q) == v * q * (v * q)
  {
    MulAssoc(v, v, q * q);
    MulAssoc(v, q, v * q);
    MulAssoc(v, q, q);
    MulAssoc(q, v, q);
  }
}
