/** Notions shared by several modules. */
module Basics {

  predicate Distinct<T(==)>(s: seq<T>) {
    forall i, j :: 0 <= i < j < |s| ==> s[i] != s[j]
  }

  function Max(a: int, b: int): int {
    if a > b then a else b
  }

  /** Is this the first of n in a row, counting from zero? */
  predicate EveryNth(n: nat, count: nat)
    requires n > 0
  {
    count % n == 0
  }

  /** Of any n in a row exactly one is, and zero is. */
  lemma {:induction false} OneOfAny(n: nat, start: nat) returns (j: nat)
    requires n > 0
    ensures start <= j < start + n && EveryNth(n, 0)
    ensures forall i: nat :: start <= i < start + n ==> (EveryNth(n, i) <==> i == j)
  {
    var r := start % n;
    j := if r == 0 then start else start + n - r;
    forall i: nat | start <= i < start + n
      ensures EveryNth(n, i) <==> i == j
    {
      RemainderOfSum(start, i - start, n);
    }
  }

  lemma {:induction false} RemainderOfSum(a: nat, k: nat, n: nat)
    requires k < n
    ensures (a + k) % n == if a % n + k < n then a % n + k else a % n + k - n
  {
    var q, r := a / n, a % n;
    if r + k < n {
      SameRemainder(a + k, q, n, r + k);
    } else {
      assert (q + 1) * n == q * n + n;
      SameRemainder(a + k, q + 1, n, r + k - n);
    }
  }

  lemma {:induction false} SameRemainder(a: nat, q: int, n: nat, r: nat)
    requires n > 0 && a == q * n + r && r < n
    ensures a % n == r
  {
    assert a == a / n * n + a % n;
    Multiple(a / n - q, n);
  }

  lemma {:induction false} Multiple(d: int, n: nat)
    ensures d >= 1 ==> d * n >= n
    ensures d <= -1 ==> d * n <= -(n as int)
  {
    if d >= 1 {
      assert (d - 1) * n >= 0;
    } else if d <= -1 {
      assert (-1 - d) * n >= 0;
    }
  }

  /** Products the verifier is to treat as names, wherever their arithmetic is hidden. */
  ghost function Product(a: nat, b: nat): nat {
    a * b
  }

  ghost function Times(x: real, n: int): real {
    x * n as real
  }
}
