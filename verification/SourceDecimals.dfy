/** Provider decimals, with or without an exponent, as canonical decimal strings: nothing is rounded. */
module SourceDecimals {
  import opened Common
  import opened Digits
  import opened Decimals
  import opened JsonScanner
  import opened JsonNumbers

  const MAX_EXPONENT := 30
  const MAX_FRACTION := 12
  const MAX_WHOLE := 30

  // ---------------------------------------------------------------- reading

  /** The exponent text at the start of `s`. */
  function ExponentOf(s: string): Option<Exponent> {
    var n := ExponentRun(s);
    if n == 0 then None
    else
      var k := if IsSign(s[1]) then 2 else 1;
      Some(Exponent(s[0], s[1..k], s[k..n]))
  }

  function FractionAt(s: string): string {
    var f := FractionRun(s);
    if f == 0 then "" else s[1..f]
  }

  /** The fraction and exponent after an integer part; none unless they take the whole text. */
  function ReadTail(minus: bool, integer: string, t: string): Option<Number> {
    var u := t[FractionRun(t)..];
    if ExponentRun(u) < |u| then None else Some(Number(minus, integer, FractionAt(t), ExponentOf(u)))
  }

  function ReadUnsigned(minus: bool, u: string): Option<Number> {
    if IntegerRun(u) == 0 then None else ReadTail(minus, u[..IntegerRun(u)], u[IntegerRun(u)..])
  }

  /** The parts of a decimal text; none unless the whole text is one. */
  function Read(s: string): Option<Number> {
    if s != "" && s[0] == '-' then ReadUnsigned(true, s[1..]) else ReadUnsigned(false, s)
  }

  function ExponentValue(n: Number): int
    requires ValidNumber(n)
  {
    match n.exponent
    case None => 0
    case Some(e) => var v: int := ToNat(e.digits); if e.sign == "-" then -v else v
  }

  // ---------------------------------------------------------------- canonical form

  function DropLeadingZeros(s: string): (r: string)
    ensures |r| <= |s|
  {
    if |s| > 1 && s[0] == '0' then DropLeadingZeros(s[1..]) else s
  }

  function DropTrailingZeros(s: string): (r: string)
    ensures r <= s
  {
    if s != "" && s[|s| - 1] == '0' then DropTrailingZeros(s[..|s| - 1]) else s
  }

  /** The digits around the decimal point, once the exponent has moved it. */
  function Expand(digits: string, point: int): (r: (string, string))
    requires AllDigits(digits) && digits != ""
    ensures AllDigits(r.0) && AllDigits(r.1) && r.0 != ""
  {
    if point <= 0 then ("0", Zeros(-point) + digits)
    else if point >= |digits| then (digits + Zeros(point - |digits|), "")
    else (digits[..point], digits[point..])
  }

  function Assemble(minus: bool, whole: string, fraction: string): string {
    var text := whole + FractionText(fraction);
    if minus && text != "0" then "-" + text else text
  }

  function SourceDecimal(s: string): Option<string> {
    match Read(s)
    case None => None
    case Some(n) =>
      ReadValid(s);
      var e := ExponentValue(n);
      if e > MAX_EXPONENT || e < -MAX_EXPONENT then None
      else
        var expanded := Expand(n.integer + n.fraction, |n.integer| + e);
        var whole := DropLeadingZeros(expanded.0);
        var fraction := DropTrailingZeros(expanded.1);
        if |fraction| > MAX_FRACTION || |whole| > MAX_WHOLE then None else Some(Assemble(n.minus, whole, fraction))
  }

  // ---------------------------------------------------------------- reading is exact

  lemma IntegerRunShortest(s: string)
    requires IntegerRun(s) > 0
    ensures Shortest(s[..IntegerRun(s)])
  {
  }

  lemma ExponentOfValid(s: string)
    ensures ExponentOf(s).Some? <==> ExponentRun(s) > 0
    ensures ExponentOf(s).Some? ==> ValidExponent(ExponentOf(s).value)
    ensures ExponentText(ExponentOf(s)) == s[..ExponentRun(s)]
  {
    var n := ExponentRun(s);
    if n > 0 {
      var k := if IsSign(s[1]) then 2 else 1;
      assert s[k..n] == s[k..][..n - k];
      assert s[..n] == [s[0]] + (s[1..k] + s[k..n]);
    }
  }

  lemma FractionOfValid(s: string)
    ensures var f := FractionRun(s);
      && f != 1 && (f > 0 ==> AllDigits(s[1..f]) && s[1..f] != "" && FractionText(s[1..f]) == s[..f])
  {
    var f := FractionRun(s);
    if f > 0 {
      assert s[1..f] == s[1..][..f - 1];
      assert s[..f] == "." + s[1..f];
    }
  }

  lemma TailValid(minus: bool, integer: string, t: string)
    requires Shortest(integer) && ReadTail(minus, integer, t).Some?
    ensures var n := ReadTail(minus, integer, t).value;
      && ValidNumber(n) && n.minus == minus && n.integer == integer
      && FractionText(n.fraction) + ExponentText(n.exponent) == t
  {
    FractionAtValid(t);
    ExponentOfValid(t[FractionRun(t)..]);
    hide FractionRun, ExponentRun, ExponentOf, ExponentText, FractionText, FractionAt, ValidExponent;
    assert t[..FractionRun(t)] + t[FractionRun(t)..] == t;
  }

  lemma LexemeTail(n: Number, integer: string, t: string)
    requires n.integer == integer && FractionText(n.fraction) + ExponentText(n.exponent) == t
    ensures Lexeme(n) == (if n.minus then "-" else "") + (integer + t)
  {
  }

  lemma UnsignedValid(minus: bool, u: string)
    requires ReadUnsigned(minus, u).Some?
    ensures var n := ReadUnsigned(minus, u).value; ValidNumber(n) && Lexeme(n) == (if minus then "-" else "") + u
  {
    var i := IntegerRun(u);
    IntegerRunShortest(u);
    TailValid(minus, u[..i], u[i..]);
    hide IntegerRun, ReadTail, FractionText, ExponentText, ValidNumber, Lexeme, Shortest;
    LexemeTail(ReadUnsigned(minus, u).value, u[..i], u[i..]);
    assert u[..i] + u[i..] == u;
  }

  /** What is read is a number, and its lexeme is the text. */
  lemma ReadValid(s: string)
    ensures Read(s).Some? ==> ValidNumber(Read(s).value) && Lexeme(Read(s).value) == s
  {
    if Read(s).Some? {
      if s != "" && s[0] == '-' {
        UnsignedValid(true, s[1..]);
        assert "-" + s[1..] == s;
      } else {
        UnsignedValid(false, s);
        assert "" + s == s;
      }
    }
  }

  lemma TailRead(n: Number)
    requires ValidNumber(n)
    ensures ReadTail(n.minus, n.integer, FractionText(n.fraction) + ExponentText(n.exponent)) == Some(n)
  {
    var x := ExponentText(n.exponent);
    var t := FractionText(n.fraction) + x;
    assert x + "" == x;
    TailStarts(n, "");
    FractionRunStops(n.fraction, x);
    ExponentRunStops(n.exponent, "");
    assert t[|FractionText(n.fraction)|..] == x;
    if n.fraction != "" {
      assert t[1..FractionRun(t)] == n.fraction;
    }
    ExponentRead(n.exponent);
  }

  lemma ExponentRead(e: Option<Exponent>)
    requires e.Some? ==> ValidExponent(e.value)
    ensures ExponentOf(ExponentText(e)) == e
  {
    var x := ExponentText(e);
    assert x + "" == x;
    ExponentRunStops(e, "");
    if e.Some? {
      var k := 1 + |e.value.sign|;
      assert x[1..k] == e.value.sign && x[k..|x|] == e.value.digits;
      assert x[1] == (e.value.sign + e.value.digits)[0];
    }
  }

  lemma UnsignedRead(n: Number, u: string)
    requires ValidNumber(n) && u == n.integer + (FractionText(n.fraction) + ExponentText(n.exponent))
    ensures ReadUnsigned(n.minus, u) == Some(n) && u[0] != '-'
  {
    var t := FractionText(n.fraction) + ExponentText(n.exponent);
    assert ExponentText(n.exponent) + "" == ExponentText(n.exponent);
    TailStarts(n, "");
    IntegerRunStops(n.integer, t);
    TailRead(n);
    assert u[..|n.integer|] == n.integer && u[|n.integer|..] == t && u[0] == n.integer[0];
  }

  /** Reading is exact: a text is accepted exactly when it is a number's lexeme, and then it is read as that number. */
  lemma ReadExactly(s: string, n: Number)
    requires ValidNumber(n)
    ensures Read(s) == Some(n) <==> s == Lexeme(n)
  {
    ReadValid(s);
    if s == Lexeme(n) {
      var u := n.integer + (FractionText(n.fraction) + ExponentText(n.exponent));
      UnsignedRead(n, u);
      hide ReadUnsigned, FractionText, ExponentText, ValidNumber;
      if n.minus {
        assert s == "-" + u && s[1..] == u;
      } else {
        assert s == "" + u == u;
      }
    }
  }

  lemma FractionAtValid(s: string)
    ensures AllDigits(FractionAt(s)) && FractionText(FractionAt(s)) == s[..FractionRun(s)]
  {
    FractionOfValid(s);
  }
}
