/** Decimal digits as text. */
module DigitText {
  import opened Positional

  function NumberOf(s: seq<char>): int {
    if |s| == 0 then 0 else 10 * NumberOf(s[..|s| - 1]) + (s[|s| - 1] as int - '0' as int)
  }

  predicate AllDigits(s: seq<char>) {
    forall i :: 0 <= i < |s| ==> '0' <= s[i] <= '9'
  }

  lemma {:induction false} NumberOfSnoc(s: seq<char>, c: char)
    ensures NumberOf(s + [c]) == 10 * NumberOf(s) + (c as int - '0' as int)
  {
    assert (s + [c])[..|s|] == s;
  }

  /** Adding one to the last character adds one to the number. */
  lemma {:induction false} NumberOfBump(s: seq<char>, t: seq<char>)
    requires |s| == |t| > 0 && t[..|t| - 1] == s[..|s| - 1] && t[|t| - 1] as int == s[|s| - 1] as int + 1
    ensures NumberOf(t) == NumberOf(s) + 1
  {
  }

  /** Carrying ten units at i as one unit at i - 1 keeps the number. */
  lemma {:induction false} NumberOfCarry(s: seq<char>, t: seq<char>, i: nat)
    requires 0 < i < |s| == |t| && s[i] as int == '9' as int + 1 && t[i] == '0'
    requires t[i - 1] as int == s[i - 1] as int + 1
    requires forall j :: 0 <= j < |s| && j != i && j != i - 1 ==> t[j] == s[j]
    ensures NumberOf(t) == NumberOf(s)
    decreases |s|
  {
    var s', t' := s[..|s| - 1], t[..|t| - 1];
    if i == |s| - 1 {
      assert t'[..i - 1] == s'[..i - 1];
    } else {
      NumberOfCarry(s', t', i);
    }
  }

  /** A leading character followed by zeros only. */
  lemma {:induction false} NumberOfZeros(s: seq<char>, t: seq<char>)
    requires |s| > 0 && s[0] as int == '9' as int + 1 && forall j :: 0 < j < |s| ==> s[j] == '0'
    requires |t| == |s| + 1 && t[0] == '1' && forall j :: 0 < j < |t| ==> t[j] == '0'
    ensures NumberOf(t) == NumberOf(s)
    decreases |s|
  {
    var s', t' := s[..|s| - 1], t[..|t| - 1];
    if |s| == 1 {
      assert t' == ['1'] && t'[..0] == [] && s' == [];
      assert NumberOf(t') == 1;
    } else {
      NumberOfZeros(s', t');
    }
  }

  /** n digits make a number below 10^n. */
  lemma {:induction false} DigitsBelow(s: seq<char>)
    requires AllDigits(s)
    ensures 0 <= NumberOf(s) < Pow(10, |s|)
  {
    if |s| > 0 {
      DigitsBelow(s[..|s| - 1]);
    }
  }

  /** A one and zeros. */
  lemma {:induction false} NumberOfTen(s: seq<char>)
    requires |s| > 0 && s[0] == '1' && forall j :: 0 < j < |s| ==> s[j] == '0'
    ensures NumberOf(s) == Pow(10, |s| - 1)
  {
    if |s| > 1 {
      NumberOfTen(s[..|s| - 1]);
    }
  }
}
