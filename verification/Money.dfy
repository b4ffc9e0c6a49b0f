/** Exact money texts: the provider parsers and the cent arithmetic that rests on them. */
module Money {
  import opened Common
  import opened Digits

  function Abs(n: int): nat {
    if n < 0 then -n else n
  }

  /** Two digits, as `padStart(2, '0')` of a remainder below 100. */
  function TwoDigits(n: nat): (s: string)
    requires n < 100
    ensures |s| == 2 && AllDigits(s)
  {
    [DigitChar(n / 10), DigitChar(n % 10)]
  }

  function Body(whole: string, cents: string): string {
    whole + "." + cents
  }

  /** Signed shekels-and-cents text of an amount in cents. */
  function Format(cents: int): string {
    (if cents < 0 then "-" else "") + Body(FromNat(Abs(cents) / 100), TwoDigits(Abs(cents) % 100))
  }

  /** The other provider's formatter: pad the whole digit string to three, then cut before the last two. */
  function FormatByPadding(cents: int): string {
    var digits := FromNat(Abs(cents));
    var padded := Zeros(if |digits| < 3 then 3 - |digits| else 0) + digits;
    (if cents < 0 then "-" else "") + Body(padded[..|padded| - 2], padded[|padded| - 2..])
  }

  function Sign(text: string): string {
    if text != "" && text[0] == '-' then "-" else ""
  }

  function Unsigned(text: string): string {
    if text != "" && text[0] == '-' then text[1..] else text
  }

  function Before(s: string, separator: char): (r: string)
    ensures |r| <= |s| && r == s[..|r|] && separator !in r
    ensures |r| < |s| ==> s[|r|] == separator
  {
    if s == "" || s[0] == separator then "" else [s[0]] + Before(s[1..], separator)
  }

  function WithoutCommas(s: string): (r: string)
    ensures forall c :: c in r ==> c in s && c != ','
  {
    if s == "" then "" else if s[0] == ',' then WithoutCommas(s[1..]) else [s[0]] + WithoutCommas(s[1..])
  }

  /** One to three digits followed by one or more groups of a comma and three digits. */
  predicate Grouped(s: string) {
    && |s| >= 5 && s[|s| - 4] == ',' && AllDigits(s[|s| - 3..])
    && ((|s| <= 7 && AllDigits(s[..|s| - 4])) || Grouped(s[..|s| - 4]))
  }

  predicate WholePart(s: string) {
    (s != "" && AllDigits(s)) || Grouped(s)
  }

  /** An optional point with one or two digits. */
  predicate CentPart(s: string) {
    s == "" || (2 <= |s| <= 3 && s[0] == '.' && AllDigits(s[1..]))
  }

  predicate MoneyText(text: string) {
    var whole := Before(Unsigned(text), '.');
    WholePart(whole) && CentPart(Unsigned(text)[|whole|..])
  }

  lemma {:induction false} GroupedChars(s: string)
    requires Grouped(s)
    ensures forall i :: 0 <= i < |s| ==> IsDigit(s[i]) || s[i] == ','
    ensures exists i :: 0 <= i < |s| && IsDigit(s[i])
  {
    var front := s[..|s| - 4];
    assert IsDigit(s[|s| - 1]) by {
      assert s[|s| - 3..][2] == s[|s| - 1];
    }
    if !(|s| <= 7 && AllDigits(front)) {
      GroupedChars(front);
    }
    forall i | 0 <= i < |s|
      ensures IsDigit(s[i]) || s[i] == ','
    {
      if i < |s| - 4 {
        assert front[i] == s[i];
      } else if i > |s| - 4 {
        assert s[|s| - 3..][i - (|s| - 3)] == s[i];
      }
    }
  }

  lemma {:induction false} WithoutCommasKeeps(s: string)
    ensures forall i :: 0 <= i < |s| && s[i] != ',' ==> s[i] in WithoutCommas(s)
  {
    if s != "" {
      WithoutCommasKeeps(s[1..]);
    }
  }

  /** The digits of the whole part with its commas dropped. */
  function WholeDigits(text: string): (s: string)
    requires MoneyText(text)
    ensures s != "" && AllDigits(s)
  {
    var whole := Before(Unsigned(text), '.');
    WholeDigitsProper(whole);
    WithoutCommas(whole)
  }

  lemma WholeDigitsProper(whole: string)
    requires WholePart(whole)
    ensures WithoutCommas(whole) != "" && AllDigits(WithoutCommas(whole))
  {
    WithoutCommasKeeps(whole);
    var r := WithoutCommas(whole);
    if Grouped(whole) {
      GroupedChars(whole);
    } else {
      assert whole[0] in r;
    }
    forall i | 0 <= i < |r|
      ensures IsDigit(r[i])
    {
      assert r[i] in whole;
    }
  }

  /** The fraction padded with zeros to two digits. */
  function CentDigits(text: string): (s: string)
    requires MoneyText(text)
    ensures |s| == 2 && AllDigits(s)
  {
    var part := Unsigned(text)[|Before(Unsigned(text), '.')|..];
    if part == "" then "00" else if |part| == 2 then part[1..] + "0" else part[1..]
  }

  /** What the text denotes, in cents. */
  function Denotes(text: string): int
    requires MoneyText(text)
  {
    var cents := 100 * ToNat(WholeDigits(text)) + ToNat(CentDigits(text));
    if Sign(text) == "-" then -cents else cents
  }

  /** The source's parser: canonical text, or none for a text outside the grammar. */
  function Parse(text: string): Option<string> {
    if !MoneyText(text) then None
    else
      var amount := FromNat(ToNat(WholeDigits(text))) + "." + CentDigits(text);
      Some(if Sign(text) == "-" && amount != "0.00" then "-" + amount else amount)
  }

  /** The best-invest parser also takes a leading plus sign. */
  function ParseWithPlus(text: string): Option<string> {
    if text != "" && text[0] == '+' then (if Sign(text[1..]) == "-" then None else Parse(text[1..])) else Parse(text)
  }

  /** Canonical texts: shortest whole part, exactly two decimals, no negative zero. */
  predicate Canonical(text: string) {
    && var whole := Before(Unsigned(text), '.');
    && Shortest(whole)
    && |Unsigned(text)| == |whole| + 3 && AllDigits(Unsigned(text)[|whole| + 1..])
    && text != "-0.00"
  }

  /** Drop the point and read the rest as one integer. */
  function CentsOf(text: string): int
    requires Canonical(text)
  {
    var whole := Before(Unsigned(text), '.');
    var n: int := ToNat(DigitsOf(text));
    if Sign(text) == "-" then -n else n
  }

  function DigitsOf(text: string): (s: string)
    requires Canonical(text)
    ensures AllDigits(s)
  {
    var whole := Before(Unsigned(text), '.');
    whole + Unsigned(text)[|whole| + 1..]
  }

  lemma {:induction false} BeforePoint(whole: string, rest: string)
    requires AllDigits(whole)
    ensures Before(whole + "." + rest, '.') == whole
  {
    if whole == "" {
      assert (whole + "." + rest)[0] == '.';
    } else {
      BeforePoint(whole[1..], rest);
      assert (whole + "." + rest)[1..] == whole[1..] + "." + rest;
    }
  }

  lemma TwoDigitsValue(s: string)
    requires |s| == 2 && AllDigits(s)
    ensures ToNat(s) == 10 * DigitValue(s[0]) + DigitValue(s[1]) && TwoDigits(ToNat(s)) == s
  {
    assert s[..1] == [s[0]] && s[..1][..0] == "";
    assert ToNat(s[..1]) == DigitValue(s[0]);
  }

  /** The point splits a body into its parts. */
  lemma Parts(whole: string, cents: string)
    requires AllDigits(whole)
    ensures Before(Body(whole, cents), '.') == whole
    ensures Body(whole, cents)[|whole|..] == "." + cents && Body(whole, cents)[|whole| + 1..] == cents
    ensures whole != "" ==> Unsigned(Body(whole, cents)) == Body(whole, cents) && Sign(Body(whole, cents)) == ""
    ensures Unsigned("-" + Body(whole, cents)) == Body(whole, cents) && Sign("-" + Body(whole, cents)) == "-"
  {
    BeforePoint(whole, cents);
    assert whole != "" ==> IsDigit(whole[0]) && Body(whole, cents)[0] == whole[0];
  }

  lemma CentsSum(whole: string, cents: string)
    requires AllDigits(whole) && |cents| == 2 && AllDigits(cents)
    ensures AllDigits(whole + cents) && ToNat(whole + cents) == 100 * ToNat(whole) + ToNat(cents)
  {
    ToNatConcat(whole, cents);
    assert Pow10(1) == 10;
  }

  lemma ZeroBody(whole: string, cents: string)
    requires Shortest(whole) && |cents| == 2 && AllDigits(cents)
    ensures Body(whole, cents) == "0.00" <==> 100 * ToNat(whole) + ToNat(cents) == 0
  {
    TwoDigitsValue(cents);
    assert ToNat("0") == 0 by { assert "0"[..0] == ""; }
    if Body(whole, cents) == "0.00" {
      Parts(whole, cents);
      Parts("0", "00");
      assert Body("0", "00") == "0.00";
    }
    if 100 * ToNat(whole) + ToNat(cents) == 0 {
      FromNatToNat(whole);
      assert whole == "0" && cents == "00";
    }
  }

  /** A sign, a shortest whole part and two digits make a canonical text with the expected cents. */
  lemma Assembled(negative: bool, whole: string, cents: string)
    requires Shortest(whole) && |cents| == 2 && AllDigits(cents)
    requires negative ==> 100 * ToNat(whole) + ToNat(cents) > 0
    ensures var text := (if negative then "-" else "") + Body(whole, cents);
            var n := 100 * ToNat(whole) + ToNat(cents);
            Canonical(text) && CentsOf(text) == if negative then -n else n
  {
    var text := (if negative then "-" else "") + Body(whole, cents);
    assert text == if negative then "-" + Body(whole, cents) else Body(whole, cents);
    Parts(whole, cents);
    CentsSum(whole, cents);
    ZeroBody(whole, cents);
    assert "-0.00"[1..] == "0.00";
    assert Unsigned(text) == Body(whole, cents);
    assert text != "-0.00";
    assert DigitsOf(text) == whole + cents;
  }

  lemma Disassembled(text: string)
    requires Canonical(text)
    ensures var whole := Before(Unsigned(text), '.'); var cents := Unsigned(text)[|whole| + 1..];
            && text == Sign(text) + Body(whole, cents)
            && |cents| == 2 && AllDigits(cents)
            && Abs(CentsOf(text)) == 100 * ToNat(whole) + ToNat(cents)
            && (CentsOf(text) < 0 <==> Sign(text) == "-")
  {
    var whole := Before(Unsigned(text), '.');
    var cents := Unsigned(text)[|whole| + 1..];
    assert Unsigned(text) == Body(whole, cents);
    CentsSum(whole, cents);
    assert DigitsOf(text) == whole + cents;
    ZeroBody(whole, cents);
    if Body(whole, cents) == "0.00" {
      assert "-" + "0.00" == "-0.00";
      assert text == Sign(text) + "0.00";
    }
  }

  /** Formatting then reading cents is the identity. */
  lemma CentsOfFormat(cents: int)
    ensures Canonical(Format(cents)) && CentsOf(Format(cents)) == cents
  {
    var n: int := Abs(cents);
    var whole, rest := FromNat(n / 100), TwoDigits(n % 100);
    FromNatShortest(n / 100);
    ToNatFromNat(n / 100);
    TwoDigitsValue(rest);
    assert 100 * ToNat(whole) + ToNat(rest) == n;
    Assembled(cents < 0, whole, rest);
  }

  lemma PaddedCutOnes(n: nat)
    requires n < 10
    ensures |FromNat(n)| == 1 && Zeros(2) + FromNat(n) == FromNat(n / 100) + TwoDigits(n % 100)
  {
    assert n / 100 == 0 && n % 100 == n && n / 10 == 0 && n % 10 == n;
    assert FromNat(n) == [DigitChar(n)] && FromNat(0) == [DigitChar(0)];
    hide FromNat;
    assert Zeros(2) == [DigitChar(0), DigitChar(0)];
    assert TwoDigits(n) == [DigitChar(0), DigitChar(n)];
  }

  lemma PaddedCutTens(n: nat)
    requires 10 <= n < 100
    ensures |FromNat(n)| == 2 && Zeros(1) + FromNat(n) == FromNat(n / 100) + TwoDigits(n % 100)
  {
    assert FromNat(n) == FromNat(n / 10) + [DigitChar(n % 10)];
    assert FromNat(n / 10) == [DigitChar(n / 10)];
    assert Zeros(1) == [DigitChar(0)];
  }

  lemma DigitsSplit(n: nat)
    requires n >= 100
    ensures FromNat(n) == FromNat(n / 100) + TwoDigits(n % 100)
  {
    assert n / 10 / 10 == n / 100 && n / 10 % 10 == n % 100 / 10 && n % 10 == n % 100 % 10;
    assert FromNat(n) == FromNat(n / 10) + [DigitChar(n % 10)];
    assert FromNat(n / 10) == FromNat(n / 10 / 10) + [DigitChar(n / 10 % 10)];
  }

  /** Padding the digits of a number to three and cutting before the last two splits off its cents. */
  lemma PaddedCut(n: nat)
    ensures var digits := FromNat(n);
            Zeros(if |digits| < 3 then 3 - |digits| else 0) + digits == FromNat(n / 100) + TwoDigits(n % 100)
  {
    hide FromNat, TwoDigits;
    if n < 10 {
      PaddedCutOnes(n);
    } else if n < 100 {
      PaddedCutTens(n);
    } else {
      DigitsSplit(n);
      assert Zeros(0) + FromNat(n) == FromNat(n);
    }
  }

  /** The two formatters agree. */
  lemma FormattersAgree(cents: int)
    ensures FormatByPadding(cents) == Format(cents)
  {
    PaddedCut(Abs(cents));
    hide FromNat, TwoDigits;
    var whole, rest := FromNat(Abs(cents) / 100), TwoDigits(Abs(cents) % 100);
    assert (whole + rest)[..|whole + rest| - 2] == whole && (whole + rest)[|whole + rest| - 2..] == rest;
  }

  /** Reading cents then formatting is the identity on canonical texts. */
  lemma FormatCentsOf(text: string)
    requires Canonical(text)
    ensures Format(CentsOf(text)) == text
  {
    Disassembled(text);
    var whole := Before(Unsigned(text), '.');
    var cents := Unsigned(text)[|whole| + 1..];
    TwoDigitsValue(cents);
    FromNatToNat(whole);
    assert Abs(CentsOf(text)) / 100 == ToNat(whole) && Abs(CentsOf(text)) % 100 == ToNat(cents);
    assert Format(CentsOf(text)) == Sign(text) + Body(whole, cents);
  }

  /** The parser loses nothing: its canonical output carries exactly the cents the text denotes. */
  lemma ParseExact(text: string)
    requires MoneyText(text)
    ensures Parse(text).Some? && Canonical(Parse(text).value) && CentsOf(Parse(text).value) == Denotes(text)
    ensures Parse(text).value == Format(Denotes(text))
  {
    var n := ToNat(WholeDigits(text));
    var whole, cents := FromNat(n), CentDigits(text);
    FromNatShortest(n);
    ToNatFromNat(n);
    ZeroBody(whole, cents);
    var negative := Sign(text) == "-" && Body(whole, cents) != "0.00";
    Assembled(negative, whole, cents);
    assert Parse(text).value == (if negative then "-" else "") + Body(whole, cents);
    FormatCentsOf(Parse(text).value);
  }

  /** Canonical texts are in the grammar, and denote the cents they spell. */
  lemma CanonicalDenotes(text: string)
    requires Canonical(text)
    ensures MoneyText(text) && Denotes(text) == CentsOf(text)
  {
    var whole := Before(Unsigned(text), '.');
    var cents := Unsigned(text)[|whole| + 1..];
    assert Unsigned(text) == Body(whole, cents);
    Parts(whole, cents);
    assert ("." + cents)[1..] == cents;
    DigitsHaveNoCommas(whole);
    assert MoneyText(text);
    assert WholeDigits(text) == whole && CentDigits(text) == cents;
    CentsSum(whole, cents);
    assert DigitsOf(text) == whole + cents;
    hide Before, ToNat, Body;
  }

  /** Canonical texts are accepted unchanged. */
  lemma CanonicalFixed(text: string)
    requires Canonical(text)
    ensures Parse(text) == Some(text)
  {
    CanonicalDenotes(text);
    ParseExact(text);
    FormatCentsOf(text);
  }

  lemma {:induction false} DigitsHaveNoCommas(s: string)
    requires AllDigits(s)
    ensures WithoutCommas(s) == s
  {
    if s != "" {
      DigitsHaveNoCommas(s[1..]);
    }
  }

  // ---------------------------------------------------------------- a leading plus sign

  predicate Signed(text: string) {
    text != "" && (text[0] == '+' || text[0] == '-')
  }

  /** The grammar with either sign, or none. */
  predicate SignedMoneyText(text: string) {
    var body := if Signed(text) then text[1..] else text;
    var whole := Before(body, '.');
    WholePart(whole) && CentPart(body[|whole|..])
  }

  lemma WholeStarts(s: string)
    requires WholePart(s)
    ensures s != "" && s[0] != '-'
  {
    if Grouped(s) {
      GroupedChars(s);
    }
  }

  lemma PlusOrNone(text: string)
    ensures text != "" && text[0] == '+' ==> (SignedMoneyText(text) <==> MoneyText(text[1..]) && Sign(text[1..]) == "")
    ensures !(text != "" && text[0] == '+') ==> (SignedMoneyText(text) <==> MoneyText(text))
  {
    if SignedMoneyText(text) {
      WholeStarts(Before(if Signed(text) then text[1..] else text, '.'));
    }
    if text != "" && text[0] == '+' && MoneyText(text[1..]) {
      WholeStarts(Before(Unsigned(text[1..]), '.'));
    }
    hide WholePart, CentPart;
  }

  /** What a text of that grammar denotes, in cents. */
  function SignedDenotes(text: string): int
    requires SignedMoneyText(text)
  {
    PlusOrNone(text);
    if text[0] == '+' then Denotes(text[1..]) else Denotes(text)
  }

  /** The parser that also takes a plus sign accepts exactly its grammar, and its result is the amount, formatted. */
  lemma ParseWithPlusExact(text: string)
    ensures ParseWithPlus(text).Some? <==> SignedMoneyText(text)
    ensures SignedMoneyText(text) ==> ParseWithPlus(text) == Some(Format(SignedDenotes(text)))
    ensures SignedMoneyText(text) && text[0] != '-' ==> SignedDenotes(text) >= 0
  {
    PlusOrNone(text);
    hide SignedMoneyText, MoneyText, Format, Denotes;
    var unsigned := if text != "" && text[0] == '+' then text[1..] else text;
    if SignedMoneyText(text) {
      ParseExact(unsigned);
      DenotesSign(unsigned);
    }
  }

  lemma DenotesSign(text: string)
    requires MoneyText(text)
    ensures Sign(text) == "" ==> Denotes(text) >= 0
  {
  }
}
