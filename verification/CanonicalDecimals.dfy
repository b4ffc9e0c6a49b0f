/** What `sourceDecimal` promises: the exact number, in one canonical text per number. */
module CanonicalDecimals {
  import opened Common
  import opened Digits
  import opened Decimals
  import opened JsonNumbers
  import opened SourceDecimals
  import Money

  function Signed(minus: bool, n: nat): int {
    var v: int := n;
    if minus then -v else v
  }

  /** A decimal text without exponent: shortest whole part, no zero at the end of the fraction, no negative zero. */
  predicate CanonicalNumber(n: Number) {
    && ValidNumber(n) && n.exponent.None?
    && (n.fraction != "" ==> n.fraction[|n.fraction| - 1] != '0')
    && (n.minus ==> n.integer != "0" || n.fraction != "")
  }

  predicate Canonical(n: Number) {
    CanonicalNumber(n) && |n.integer| <= MAX_WHOLE && |n.fraction| <= MAX_FRACTION
  }

  /** The number a parsed text denotes: a signed mantissa and its decimal places. */
  function Mantissa(n: Number): int
    requires ValidNumber(n)
  {
    Signed(n.minus, ToNat(n.integer + n.fraction))
  }

  function Places(n: Number): int
    requires ValidNumber(n)
  {
    |n.fraction| - ExponentValue(n)
  }

  predicate Equal(a: Number, b: Number)
    requires ValidNumber(a) && ValidNumber(b)
  {
    SameNumber(Mantissa(a), Places(a), Mantissa(b), Places(b))
  }

  /** The digits before and after the point once the exponent is applied. */
  function Expanded(n: Number): (r: (string, string))
    requires ValidNumber(n)
    ensures AllDigits(r.0) && AllDigits(r.1) && r.0 != ""
  {
    Expand(n.integer + n.fraction, |n.integer| + ExponentValue(n))
  }

  /** The number the accepted text stands for after expansion and trimming. */
  function Trimmed(n: Number): Number
    requires ValidNumber(n)
  {
    var whole := DropLeadingZeros(Expanded(n).0);
    var fraction := DropTrailingZeros(Expanded(n).1);
    Number(n.minus && (whole != "0" || fraction != ""), whole, fraction, None)
  }

  // ---------------------------------------------------------------- zeros

  lemma {:induction false} DropLeadingKeeps(s: string)
    requires AllDigits(s) && s != ""
    ensures Shortest(DropLeadingZeros(s)) && ToNat(DropLeadingZeros(s)) == ToNat(s)
  {
    if |s| > 1 && s[0] == '0' {
      DropLeadingKeeps(s[1..]);
      assert s == "0" + s[1..];
      ToNatConcat("0", s[1..]);
      assert ToNat("0") == 0 by { assert "0"[..0] == ""; }
    }
  }

  /** The number of zeros dropped at the end. */
  function Dropped(s: string): nat {
    |s| - |DropTrailingZeros(s)|
  }

  lemma {:induction false} DropTrailingKeeps(s: string)
    requires AllDigits(s)
    ensures var r := DropTrailingZeros(s);
      AllDigits(r) && s == r + Zeros(Dropped(s)) && (r != "" ==> r[|r| - 1] != '0')
  {
    if s != "" && s[|s| - 1] == '0' {
      DropTrailingKeeps(s[..|s| - 1]);
      assert s == s[..|s| - 1] + "0";
    }
  }

  lemma ToNatTrailing(s: string, k: nat)
    requires AllDigits(s)
    ensures AllDigits(s + Zeros(k)) && ToNat(s + Zeros(k)) == ToNat(s) * Pow10(k)
  {
    ToNatConcat(s, Zeros(k));
    ToNatZeros(k);
  }

  lemma ToNatLeading(k: nat, s: string)
    requires AllDigits(s)
    ensures AllDigits("0" + (Zeros(k) + s)) && ToNat("0" + (Zeros(k) + s)) == ToNat(s)
  {
    ToNatConcat(Zeros(k), s);
    ToNatZeros(k);
    ToNatConcat("0", Zeros(k) + s);
    assert ToNat("0") == 0 by { assert "0"[..0] == ""; }
  }

  // ---------------------------------------------------------------- the value is kept

  /** Moving the point keeps the number. */
  lemma ExpandKeeps(digits: string, point: int)
    requires AllDigits(digits) && digits != ""
    ensures var e := Expand(digits, point);
      AllDigits(e.0 + e.1) && SameNumber(ToNat(digits), |digits| - point, ToNat(e.0 + e.1), |e.1|)
  {
    var e := Expand(digits, point);
    if point <= 0 {
      ToNatLeading(-point, digits);
    } else if point >= |digits| {
      ToNatTrailing(digits, point - |digits|);
      assert e.0 + "" == e.0;
    } else {
      assert digits[..point] + digits[point..] == digits;
    }
  }

  /** Trimming zeros keeps the number. */
  lemma TrimKeeps(whole: string, fraction: string)
    requires AllDigits(whole) && whole != "" && AllDigits(fraction)
    ensures var w := DropLeadingZeros(whole); var f := DropTrailingZeros(fraction);
      AllDigits(w) && AllDigits(f) && AllDigits(whole + fraction) && AllDigits(w + f)
      && SameNumber(ToNat(whole + fraction), |fraction|, ToNat(w + f), |f|)
  {
    var w, f := DropLeadingZeros(whole), DropTrailingZeros(fraction);
    var k := Dropped(fraction);
    DropLeadingKeeps(whole);
    DropTrailingKeeps(fraction);
    ToNatConcat(whole, f);
    ToNatConcat(w, f);
    assert whole + fraction == whole + f + Zeros(k);
    ToNatTrailing(whole + f, k);
    TrailingZeros(ToNat(w + f), |f|, k);
  }

  lemma TrimmedCanonical(n: Number)
    requires ValidNumber(n)
    ensures ValidNumber(Trimmed(n)) && CanonicalNumber(Trimmed(n))
  {
    DropLeadingKeeps(Expanded(n).0);
    DropTrailingKeeps(Expanded(n).1);
    hide Expanded, DropLeadingZeros, DropTrailingZeros, ToNat;
  }

  lemma ExpandedKeeps(n: Number)
    requires ValidNumber(n)
    ensures var e := Expanded(n);
      AllDigits(n.integer + n.fraction) && AllDigits(e.0 + e.1)
      && SameNumber(ToNat(n.integer + n.fraction), Places(n), ToNat(e.0 + e.1), |e.1|)
  {
    ExpandKeeps(n.integer + n.fraction, |n.integer| + ExponentValue(n));
    hide SameNumber, ToNat, Expand;
  }

  lemma TrimmedKeepsMantissa(n: Number)
    requires ValidNumber(n)
    ensures ValidNumber(Trimmed(n)) && CanonicalNumber(Trimmed(n)) && Trimmed(n).exponent.None?
    ensures AllDigits(n.integer + n.fraction) && AllDigits(Trimmed(n).integer + Trimmed(n).fraction)
    ensures SameNumber(ToNat(n.integer + n.fraction), Places(n), ToNat(Trimmed(n).integer + Trimmed(n).fraction), |Trimmed(n).fraction|)
  {
    TrimmedCanonical(n);
    ExpandedKeeps(n);
    hide SameNumber, ToNat, Expanded, DropLeadingZeros, DropTrailingZeros, CanonicalNumber, ExponentValue;
    var whole, fraction := Expanded(n).0, Expanded(n).1;
    TrimKeeps(whole, fraction);
    SameTransitive(ToNat(n.integer + n.fraction), Places(n), ToNat(whole + fraction), |fraction|,
                   ToNat(DropLeadingZeros(whole) + DropTrailingZeros(fraction)), |DropTrailingZeros(fraction)|);
  }

  lemma ZeroDigits()
    ensures AllDigits("0" + "") && ToNat("0" + "") == 0
  {
    assert "0" + "" == "0" && "0"[..0] == "";
  }

  /** The trimmed number is the one that was read, sign included. */
  lemma TrimmedEqual(n: Number)
    requires ValidNumber(n)
    ensures ValidNumber(Trimmed(n)) && Equal(n, Trimmed(n))
  {
    TrimmedKeepsMantissa(n);
    var t := Trimmed(n);
    var a, b := ToNat(n.integer + n.fraction), ToNat(t.integer + t.fraction);
    SameNegated(a, Places(n), b, |t.fraction|);
    if n.minus && !t.minus {
      ZeroDigits();
      assert t.integer + t.fraction == "0" + "";
    }
    hide SameNumber, ToNat, Trimmed, CanonicalNumber;
    assert Places(t) == |t.fraction|;
  }

  // ---------------------------------------------------------------- the function

  predicate Fits(n: Number)
    requires ValidNumber(n)
  {
    && -MAX_EXPONENT <= ExponentValue(n) <= MAX_EXPONENT
    && |Trimmed(n).fraction| <= MAX_FRACTION && |Trimmed(n).integer| <= MAX_WHOLE
  }

  /** The result is the lexeme of the trimmed number, for texts that are numbers and fit. */
  lemma DecimalIs(s: string)
    ensures Read(s).Some? ==> ValidNumber(Read(s).value)
    ensures SourceDecimal(s) == if Read(s).Some? && Fits(Read(s).value) then Some(Lexeme(Trimmed(Read(s).value))) else None
  {
    ReadValid(s);
    if Read(s).Some? {
      AssembledIs(Read(s).value);
    }
  }

  lemma AssembledIs(n: Number)
    requires ValidNumber(n)
    ensures var t := Trimmed(n); Lexeme(t) == Assemble(n.minus, t.integer, t.fraction)
  {
    var t := Trimmed(n);
    TrimmedKeepsMantissa(n);
    var text := t.integer + FractionText(t.fraction);
    assert t.integer + (FractionText(t.fraction) + "") == text;
    assert "" + text == text;
    if text == "0" {
      assert |text| >= |t.integer| + |t.fraction|;
      assert t.integer + "" == t.integer;
    } else if t.integer == "0" && t.fraction == "" {
      assert false;
    }
  }

  /** A result is canonical and denotes exactly the number the input denotes. */
  lemma ValuePreserved(s: string)
    requires SourceDecimal(s).Some?
    ensures Read(s).Some? && ValidNumber(Read(s).value)
    ensures Read(SourceDecimal(s).value).Some? && Canonical(Read(SourceDecimal(s).value).value)
    ensures Equal(Read(s).value, Read(SourceDecimal(s).value).value)
  {
    DecimalIs(s);
    var n := Read(s).value;
    TrimmedKeepsMantissa(n);
    TrimmedEqual(n);
    ReadExactly(SourceDecimal(s).value, Trimmed(n));
  }

  /** Canonical texts are kept as they are. */
  lemma CanonicalFixed(n: Number)
    requires Canonical(n)
    ensures SourceDecimal(Lexeme(n)) == Some(Lexeme(n))
  {
    ReadExactly(Lexeme(n), n);
    DecimalIs(Lexeme(n));
    TrimmedFixed(n);
  }

  lemma TrimmedFixed(n: Number)
    requires CanonicalNumber(n)
    ensures Trimmed(n) == n
  {
    var digits := n.integer + n.fraction;
    if n.fraction == "" {
      assert digits == n.integer && digits + Zeros(0) == digits;
    } else {
      assert digits[..|n.integer|] == n.integer && digits[|n.integer|..] == n.fraction;
    }
    KeptWhole(n.integer);
    KeptFraction(n.fraction);
  }

  lemma KeptWhole(s: string)
    requires Shortest(s)
    ensures DropLeadingZeros(s) == s
  {
  }

  lemma KeptFraction(s: string)
    requires s != "" ==> s[|s| - 1] != '0'
    ensures DropTrailingZeros(s) == s
  {
  }

  /** Applying it twice is applying it once. */
  lemma Idempotent(s: string)
    requires SourceDecimal(s).Some?
    ensures SourceDecimal(SourceDecimal(s).value) == SourceDecimal(s)
  {
    ValuePreserved(s);
    var t := Read(SourceDecimal(s).value).value;
    ReadExactly(SourceDecimal(s).value, t);
    CanonicalFixed(t);
  }

  // ---------------------------------------------------------------- one text per number

  lemma LastDigit(s: string)
    requires AllDigits(s) && s != ""
    ensures ToNat(s) % 10 == DigitValue(s[|s| - 1])
  {
  }

  lemma TenDivides(m: int, k: nat)
    requires k > 0
    ensures (m * Pow10(k)) % 10 == 0
  {
    var p := Pow10(k - 1);
    assert m * Pow10(k) == 10 * (m * p);
  }

  /** A fraction that does not end in zero has no room for fewer places. */
  lemma NotDivisible(n: Number)
    requires CanonicalNumber(n) && n.fraction != ""
    ensures AllDigits(n.integer + n.fraction) && ToNat(n.integer + n.fraction) % 10 != 0
  {
    var s := n.integer + n.fraction;
    LastDigit(s);
    assert s[|s| - 1] == n.fraction[|n.fraction| - 1];
  }

  /** Written with more places than an equal number needs, the mantissa ends in zero. */
  lemma MorePlacesDivisible(a: Number, b: Number)
    requires ValidNumber(a) && ValidNumber(b) && a.exponent.None? && b.exponent.None?
    requires Equal(a, b) && |a.fraction| < |b.fraction|
    ensures Mantissa(b) % 10 == 0
  {
    var k := |b.fraction| - |a.fraction|;
    TenDivides(Mantissa(a), k);
    assert Lift(Mantissa(b), Places(b), Places(b)) == Mantissa(b);
  }

  lemma FewerPlacesImpossible(a: Number, b: Number)
    requires CanonicalNumber(a) && CanonicalNumber(b) && Equal(a, b)
    ensures |b.fraction| <= |a.fraction|
  {
    if |a.fraction| < |b.fraction| {
      NotDivisible(b);
      MorePlacesDivisible(a, b);
    }
  }

  lemma ShortestStarts(s: string)
    requires Shortest(s) && s != "0"
    ensures s[0] != '0'
  {
    if |s| == 1 {
      assert s == [s[0]];
    }
  }

  lemma MinusMeansNegative(n: Number)
    requires CanonicalNumber(n)
    ensures AllDigits(n.integer + n.fraction)
    ensures n.minus <==> Mantissa(n) < 0
  {
    if n.minus {
      if n.fraction != "" {
        NotDivisible(n);
      } else {
        assert n.integer + n.fraction == n.integer;
        ShortestStarts(n.integer);
        PositiveWhenLeading(n.integer);
      }
    }
  }

  lemma AtLeastOne(x: int, p: nat)
    requires x >= 1
    ensures x * p >= p
  {
  }

  lemma Difference(a: int, c: int, p: int)
    ensures (a - c) * p == a * p - c * p
  {
  }

  lemma SplitUnique(a: nat, b: nat, c: nat, d: nat, p: nat)
    requires b < p && d < p && a * p + b == c * p + d
    ensures a == c && b == d
  {
    Difference(a, c, p);
    Difference(c, a, p);
    if a < c {
      AtLeastOne(c - a, p);
    } else if c < a {
      AtLeastOne(a - c, p);
    }
  }

  lemma DigitsUnique(wholeA: string, fractionA: string, wholeB: string, fractionB: string)
    requires Shortest(wholeA) && Shortest(wholeB) && AllDigits(fractionA) && AllDigits(fractionB) && |fractionA| == |fractionB|
    requires AllDigits(wholeA + fractionA) && AllDigits(wholeB + fractionB)
    requires ToNat(wholeA + fractionA) == ToNat(wholeB + fractionB)
    ensures wholeA == wholeB && fractionA == fractionB
  {
    ToNatConcat(wholeA, fractionA);
    ToNatConcat(wholeB, fractionB);
    ToNatBound(fractionA);
    ToNatBound(fractionB);
    SplitUnique(ToNat(wholeA), ToNat(fractionA), ToNat(wholeB), ToNat(fractionB), Pow10(|fractionA|));
    FromNatToNat(wholeA);
    FromNatToNat(wholeB);
    SameLengthInjective(fractionA, fractionB);
  }

  lemma CanonicalUnique(a: Number, b: Number)
    requires CanonicalNumber(a) && CanonicalNumber(b) && Equal(a, b)
    ensures a == b
  {
    FewerPlacesImpossible(a, b);
    SameSymmetric(Mantissa(a), Places(a), Mantissa(b), Places(b));
    FewerPlacesImpossible(b, a);
    MinusMeansNegative(a);
    MinusMeansNegative(b);
    assert Mantissa(a) == Mantissa(b);
    DigitsUnique(a.integer, a.fraction, b.integer, b.fraction);
  }

  /** Two accepted texts have the same result exactly when they denote the same number. */
  lemma SameTextIffSameNumber(s: string, t: string)
    requires SourceDecimal(s).Some? && SourceDecimal(t).Some?
    ensures Read(s).Some? && Read(t).Some? && ValidNumber(Read(s).value) && ValidNumber(Read(t).value)
    ensures SourceDecimal(s) == SourceDecimal(t) <==> Equal(Read(s).value, Read(t).value)
  {
    ValuePreserved(s);
    ValuePreserved(t);
    var a, b := Read(s).value, Read(t).value;
    var x, y := Read(SourceDecimal(s).value).value, Read(SourceDecimal(t).value).value;
    if SourceDecimal(s) == SourceDecimal(t) {
      EqualVia(a, x, b);
    }
    if Equal(a, b) {
      EqualVia(x, a, b);
      EqualVia(x, b, y);
      CanonicalUnique(x, y);
      ReadValid(SourceDecimal(s).value);
      ReadValid(SourceDecimal(t).value);
    }
  }

  /** Numbers both equal to a third are equal. */
  lemma EqualVia(a: Number, b: Number, c: Number)
    requires ValidNumber(a) && ValidNumber(b) && ValidNumber(c)
    requires (Equal(a, b) || Equal(b, a)) && (Equal(b, c) || Equal(c, b))
    ensures Equal(a, c)
  {
    SameTransitive(Mantissa(a), Places(a), Mantissa(b), Places(b), Mantissa(c), Places(c));
  }

  // ---------------------------------------------------------------- what is accepted

  predicate ZerosFrom(s: string, k: nat) {
    forall i :: k <= i < |s| ==> s[i] == '0'
  }

  predicate ZerosBefore(s: string, k: int) {
    forall i :: 0 <= i < k && i < |s| ==> s[i] == '0'
  }

  lemma {:induction false} TrailingFits(s: string, k: nat)
    ensures |DropTrailingZeros(s)| <= k <==> ZerosFrom(s, k)
  {
    if s != "" && s[|s| - 1] == '0' {
      TrailingFits(s[..|s| - 1], k);
      var t := s[..|s| - 1];
      if ZerosFrom(t, k) {
        forall i | k <= i < |s| ensures s[i] == '0' {
          if i < |t| { assert s[i] == t[i]; }
        }
      } else {
        var i :| k <= i < |t| && t[i] != '0';
        assert s[i] == t[i];
      }
    } else if s != "" && k < |s| {
      assert s[|s| - 1] != '0';
    }
  }

  lemma {:induction false} LeadingFits(s: string, k: nat)
    requires s != "" && k > 0
    ensures |DropLeadingZeros(s)| <= k <==> ZerosBefore(s, |s| - k)
  {
    if |s| > 1 && s[0] == '0' {
      LeadingFits(s[1..], k);
      var t := s[1..];
      if ZerosBefore(t, |t| - k) {
        forall i | 0 <= i < |s| - k ensures s[i] == '0' {
          if i > 0 { assert s[i] == t[i - 1]; }
        }
      } else {
        var i :| 0 <= i < |t| - k && t[i] != '0';
        assert s[i + 1] == t[i];
      }
    }
  }

  /** The exponent is at most 30 either way and, written out, the number has nothing but zeros beyond twelve decimal places and
      before thirty whole digits. */
  predicate WithinLimits(n: Number)
    requires ValidNumber(n)
  {
    && -30 <= ExponentValue(n) <= 30
    && ZerosFrom(Expanded(n).1, 12) && ZerosBefore(Expanded(n).0, |Expanded(n).0| - 30)
  }

  lemma FitsExactly(n: Number)
    requires ValidNumber(n)
    ensures Fits(n) <==> WithinLimits(n)
  {
    TrailingFits(Expanded(n).1, MAX_FRACTION);
    LeadingFits(Expanded(n).0, MAX_WHOLE);
    hide Expanded, ZerosFrom, ZerosBefore, DropLeadingZeros, DropTrailingZeros, ValidNumber, ExponentValue;
  }

  /** A text is accepted exactly when it is a decimal number within the limits. */
  lemma AcceptedExactly(s: string)
    ensures Read(s).Some? ==> ValidNumber(Read(s).value)
    ensures SourceDecimal(s).Some? <==> Read(s).Some? && WithinLimits(Read(s).value)
  {
    DecimalIs(s);
    if Read(s).Some? {
      FitsExactly(Read(s).value);
    }
    hide SourceDecimal, Read, Fits, WithinLimits, ValidNumber, Trimmed, Lexeme;
  }

  // ---------------------------------------------------------------- money

  function Cents(n: Number): (s: string)
    requires AllDigits(n.fraction) && |n.fraction| <= 2
    ensures |s| == 2 && AllDigits(s)
  {
    n.fraction + Zeros(2 - |n.fraction|)
  }

  /** Provider money: at most two decimals, always written with two. */
  function MoneyOf(s: string): Option<string> {
    match SourceDecimal(s)
    case None => None
    case Some(text) =>
      var n := Read(text);
      if n.None? || |n.value.fraction| > 2 then None
      else
        var sign := if n.value.minus then "-" else "";
        ReadValid(text);
        Some(sign + Money.Body(n.value.integer, Cents(n.value)))
  }

  /** Writing two places multiplies the mantissa. */
  lemma PaddedDigits(n: Number)
    requires ValidNumber(n) && |n.fraction| <= 2
    ensures AllDigits(n.integer + n.fraction)
    ensures 100 * ToNat(n.integer) + ToNat(Cents(n)) == ToNat(n.integer + n.fraction) * Pow10(2 - |n.fraction|)
  {
    var k := 2 - |n.fraction|;
    assert n.integer + Cents(n) == n.integer + n.fraction + Zeros(k);
    ToNatTrailing(n.integer + n.fraction, k);
    Money.CentsSum(n.integer, Cents(n));
  }

  lemma PaddedSame(n: Number)
    requires CanonicalNumber(n) && |n.fraction| <= 2
    ensures SameNumber(Mantissa(n), Places(n), Signed(n.minus, 100 * ToNat(n.integer) + ToNat(Cents(n))), 2)
  {
    var k := 2 - |n.fraction|;
    PaddedDigits(n);
    SignedTimes(n.minus, ToNat(n.integer + n.fraction), Pow10(k));
    TrailingZeros(Mantissa(n), |n.fraction|, k);
  }

  lemma PaddedPositive(n: Number)
    requires CanonicalNumber(n) && |n.fraction| <= 2 && n.minus
    ensures 100 * ToNat(n.integer) + ToNat(Cents(n)) > 0
  {
    PaddedDigits(n);
    MinusMeansNegative(n);
    SignedTimes(n.minus, ToNat(n.integer + n.fraction), Pow10(2 - |n.fraction|));
  }

  /** A canonical number with two places written out is canonical money text of the same amount. */
  lemma PaddedMoney(n: Number)
    requires CanonicalNumber(n) && |n.fraction| <= 2
    ensures var text := (if n.minus then "-" else "") + Money.Body(n.integer, Cents(n));
      Money.Canonical(text) && SameNumber(Mantissa(n), Places(n), Money.CentsOf(text), 2)
  {
    PaddedSame(n);
    if n.minus { PaddedPositive(n); }
    hide SameNumber, ToNat, Cents, Money.Canonical, Money.CentsOf, Money.Body;
    Money.Assembled(n.minus, n.integer, Cents(n));
  }

  /** The result is canonical money text for exactly the amount given. */
  lemma MoneyExact(s: string)
    requires MoneyOf(s).Some?
    ensures Read(s).Some? && ValidNumber(Read(s).value) && Money.Canonical(MoneyOf(s).value)
    ensures SameNumber(Mantissa(Read(s).value), Places(Read(s).value), Money.CentsOf(MoneyOf(s).value), 2)
  {
    ValuePreserved(s);
    var n := Read(SourceDecimal(s).value).value;
    PaddedMoney(n);
    hide SameNumber, SourceDecimal, Read, ValidNumber, CanonicalNumber;
    SameTransitive(Mantissa(Read(s).value), Places(Read(s).value), Mantissa(n), Places(n), Money.CentsOf(MoneyOf(s).value), 2);
  }

  lemma SignedTimes(minus: bool, n: nat, p: nat)
    requires p > 0
    ensures Signed(minus, n) * p == Signed(minus, n * p) && (n > 0 ==> n * p > 0)
  {
  }
}
