/** Decimal digit strings and the natural numbers they denote. */
module Digits {

  predicate IsDigit(c: char) {
    '0' <= c <= '9'
  }

  predicate AllDigits(s: string) {
    forall i :: 0 <= i < |s| ==> IsDigit(s[i])
  }

  function DigitValue(c: char): nat
    requires IsDigit(c)
  {
    (c - '0') as nat
  }

  function DigitChar(d: nat): (c: char)
    requires d < 10
    ensures IsDigit(c) && DigitValue(c) == d
  {
    '0' + d as char
  }

  function Pow10(n: nat): (p: nat)
    ensures p >= 1
  {
    if n == 0 then 1 else 10 * Pow10(n - 1)
  }

  /** The number a digit string denotes; leading zeros are allowed and "" denotes zero. */
  function ToNat(s: string): nat
    requires AllDigits(s)
  {
    if s == "" then 0 else 10 * ToNat(s[..|s| - 1]) + DigitValue(s[|s| - 1])
  }

  /** The shortest digit string of a number. */
  function FromNat(n: nat): (s: string)
    ensures AllDigits(s) && |s| >= 1
  {
    if n < 10 then [DigitChar(n)] else FromNat(n / 10) + [DigitChar(n % 10)]
  }

  function Zeros(n: nat): (s: string)
    ensures |s| == n && AllDigits(s) && forall i :: 0 <= i < n ==> s[i] == '0'
  {
    seq(n, _ => '0')
  }

  /** No superfluous leading zero. */
  predicate Shortest(s: string) {
    |s| >= 1 && AllDigits(s) && (|s| > 1 ==> s[0] != '0')
  }

  lemma {:induction false} FromNatShortest(n: nat)
    ensures Shortest(FromNat(n)) && (n > 0 ==> FromNat(n)[0] != '0')
  {
    if n >= 10 {
      FromNatShortest(n / 10);
    }
  }

  lemma {:induction false} ToNatFromNat(n: nat)
    ensures ToNat(FromNat(n)) == n
  {
    if n >= 10 {
      ToNatFromNat(n / 10);
      assert FromNat(n)[..|FromNat(n)| - 1] == FromNat(n / 10);
    } else {
      assert FromNat(n)[..0] == "";
    }
  }

  lemma {:induction false} FromNatToNat(s: string)
    requires Shortest(s)
    ensures FromNat(ToNat(s)) == s
  {
    var front := s[..|s| - 1];
    assert s == front + [s[|s| - 1]];
    if |s| > 1 {
      assert Shortest(front);
      PositiveWhenLeading(front);
      FromNatToNat(front);
    } else {
      assert ToNat(front) == 0;
    }
  }

  lemma {:induction false} PositiveWhenLeading(s: string)
    requires AllDigits(s) && |s| >= 1 && s[0] != '0'
    ensures ToNat(s) >= 1
  {
    if |s| > 1 {
      PositiveWhenLeading(s[..|s| - 1]);
    } else {
      assert s[..0] == "";
    }
  }

  lemma {:induction false} ToNatConcat(s: string, t: string)
    requires AllDigits(s) && AllDigits(t)
    ensures AllDigits(s + t) && ToNat(s + t) == ToNat(s) * Pow10(|t|) + ToNat(t)
  {
    if t == "" {
      assert s + t == s;
    } else {
      var front := t[..|t| - 1];
      ToNatConcat(s, front);
      assert (s + t)[..|s + t| - 1] == s + front && (s + t)[|s + t| - 1] == t[|t| - 1];
      ShiftSum(ToNat(s), Pow10(|front|), ToNat(front), DigitValue(t[|t| - 1]));
    }
  }

  lemma ShiftSum(a: nat, p: nat, b: nat, d: nat)
    ensures 10 * (a * p + b) + d == a * (10 * p) + (10 * b + d)
  {
  }

  lemma {:induction false} ToNatZeros(n: nat)
    ensures ToNat(Zeros(n)) == 0
  {
    if n > 0 {
      ToNatZeros(n - 1);
      assert Zeros(n)[..n - 1] == Zeros(n - 1);
    }
  }

  /** Digit strings of one length are told apart by the numbers they denote. */
  lemma {:induction false} SameLengthInjective(s: string, t: string)
    requires AllDigits(s) && AllDigits(t) && |s| == |t| && ToNat(s) == ToNat(t)
    ensures s == t
  {
    if s != "" {
      SameLengthInjective(s[..|s| - 1], t[..|t| - 1]);
      assert s == s[..|s| - 1] + [s[|s| - 1]] && t == t[..|t| - 1] + [t[|t| - 1]];
    }
  }

  lemma {:induction false} ToNatBound(s: string)
    requires AllDigits(s)
    ensures ToNat(s) < Pow10(|s|)
  {
    if s != "" {
      ToNatBound(s[..|s| - 1]);
    }
  }

  lemma {:induction false} Pow10Sum(a: nat, b: nat)
    ensures Pow10(a + b) == Pow10(a) * Pow10(b)
  {
    if a > 0 {
      Pow10Sum(a - 1, b);
      assert Pow10(a + b) == 10 * (Pow10(a - 1) * Pow10(b));
    }
  }
}
