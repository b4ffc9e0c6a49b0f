/** The scanner that turns JSON numbers into strings of their exact lexemes before anything is parsed. */
module JsonScanner {
  import opened Common
  import opened Digits

  /** Length of the longest prefix of decimal digits. */
  function DigitRun(s: string): (n: nat)
    ensures n <= |s| && AllDigits(s[..n]) && (n < |s| ==> !IsDigit(s[n]))
  {
    if s == "" || !IsDigit(s[0]) then 0
    else
      var n := 1 + DigitRun(s[1..]);
      assert forall i :: 0 < i < n ==> s[..n][i] == s[1..][..n - 1][i - 1];
      n
  }

  function IntegerRun(s: string): (n: nat)
    ensures n <= |s|
  {
    if s == "" then 0 else if s[0] == '0' then 1 else DigitRun(s)
  }

  function FractionRun(s: string): (n: nat)
    ensures n <= |s|
  {
    if s != "" && s[0] == '.' && DigitRun(s[1..]) > 0 then 1 + DigitRun(s[1..]) else 0
  }

  predicate IsSign(c: char) {
    c == '+' || c == '-'
  }

  predicate IsExponentMark(c: char) {
    c == 'e' || c == 'E'
  }

  function ExponentRun(s: string): (n: nat)
    ensures n <= |s|
  {
    if s == "" || !IsExponentMark(s[0]) then 0
    else
      var k := if |s| > 1 && IsSign(s[1]) then 2 else 1;
      if DigitRun(s[k..]) > 0 then k + DigitRun(s[k..]) else 0
  }

  /** Length of the number at the start of the text; 0 when there is none. */
  function NumberRun(s: string): (n: nat)
    ensures n <= |s|
  {
    var k := if s != "" && s[0] == '-' then 1 else 0;
    var i := IntegerRun(s[k..]);
    if i == 0 then 0
    else
      var f := FractionRun(s[k + i..]);
      k + i + f + ExponentRun(s[k + i + f..])
  }

  function Quote(lexeme: string): string {
    "\"" + lexeme + "\""
  }

  /** A rewritten text, or none for an invalid one. */
  function Prefixed(prefix: string, rest: Option<string>): Option<string> {
    match rest
    case None => None
    case Some(text) => Some(prefix + text)
  }

  datatype Mode = Outside | Quoted | Escaped

  function Scan(s: string, mode: Mode): Option<string>
    decreases |s|
  {
    if s == "" then Some("")
    else if mode.Escaped? then Prefixed(s[..1], Scan(s[1..], Quoted))
    else if mode.Quoted? then
      Prefixed(s[..1], Scan(s[1..], if s[0] == '\\' then Escaped else if s[0] == '"' then Outside else Quoted))
    else if s[0] == '"' then Prefixed(s[..1], Scan(s[1..], Quoted))
    else if s[0] == '-' || IsDigit(s[0]) then
      if NumberRun(s) == 0 then None else Prefixed(Quote(s[..NumberRun(s)]), Scan(s[NumberRun(s)..], Outside))
    else Prefixed(s[..1], Scan(s[1..], Outside))
  }

  lemma PrefixedTwice(a: string, b: string, rest: Option<string>)
    ensures Prefixed(a, Prefixed(b, rest)) == Prefixed(a + b, rest)
  {
    if rest.Some? {
      assert a + (b + rest.value) == a + b + rest.value;
    }
  }

  lemma PrefixedNothing(rest: Option<string>)
    ensures Prefixed("", rest) == rest
  {
    if rest.Some? {
      assert "" + rest.value == rest.value;
    }
  }

  function ModeOf(quoted: bool, escaped: bool): Mode {
    if escaped then Escaped else if quoted then Quoted else Outside
  }

  predicate StartsNumber(c: char) {
    c == '-' || IsDigit(c)
  }

  function NextMode(c: char, mode: Mode): Mode {
    match mode
    case Escaped => Quoted
    case Quoted => if c == '\\' then Escaped else if c == '"' then Outside else Quoted
    case Outside => if c == '"' then Quoted else Outside
  }

  lemma CharStep(input: string, index: nat, text: string, mode: Mode)
    requires index < |input| && !(mode.Outside? && StartsNumber(input[index]))
    ensures Prefixed(text, Scan(input[index..], mode))
         == Prefixed(text + [input[index]], Scan(input[index + 1..], NextMode(input[index], mode)))
  {
    var rest := input[index..];
    assert rest[0] == input[index] && rest[1..] == input[index + 1..] && rest[..1] == [input[index]];
    PrefixedTwice(text, [input[index]], Scan(input[index + 1..], NextMode(input[index], mode)));
  }

  lemma NumberStep(input: string, index: nat, text: string)
    requires index < |input| && StartsNumber(input[index])
    ensures var n := NumberRun(input[index..]);
      Prefixed(text, Scan(input[index..], Outside)) ==
      if n == 0 then None else Prefixed(text + Quote(input[index..index + n]), Scan(input[index + n..], Outside))
  {
    var rest := input[index..];
    var n := NumberRun(rest);
    assert rest[..n] == input[index..index + n] && rest[n..] == input[index + n..];
    PrefixedTwice(text, Quote(rest[..n]), Scan(rest[n..], Outside));
  }

  /** The scanning loop. */
  method Rewrite(input: string) returns (result: Option<string>)
    ensures result == Scan(input, Outside)
  {
    var text := "";
    var quoted, escaped := false, false;
    var index := 0;
    assert input[index..] == input;
    PrefixedNothing(Scan(input, Outside));
    hide Scan, Prefixed, NumberRun;
    while index < |input|
      invariant 0 <= index <= |input| && (escaped ==> quoted)
      invariant Scan(input, Outside) == Prefixed(text, Scan(input[index..], ModeOf(quoted, escaped)))
    {
      var character := input[index];
      if quoted {
        CharStep(input, index, text, ModeOf(quoted, escaped));
        text := text + [character];
        if escaped {
          escaped := false;
        } else if character == '\\' {
          escaped := true;
        } else if character == '"' {
          quoted := false;
        }
      } else if character == '"' {
        CharStep(input, index, text, Outside);
        quoted := true;
        text := text + [character];
      } else if StartsNumber(character) {
        NumberStep(input, index, text);
        var n := NumberRun(input[index..]);
        if n == 0 {
          return None;
        }
        text := text + Quote(input[index..index + n]);
        index := index + n - 1;
      } else {
        CharStep(input, index, text, Outside);
        text := text + [character];
      }
      index := index + 1;
    }
    PrefixedEnd(text, quoted, escaped);
    assert input[index..] == "";
    result := Some(text);
  }

  lemma PrefixedEnd(text: string, quoted: bool, escaped: bool)
    ensures Prefixed(text, Scan("", ModeOf(quoted, escaped))) == Some(text)
  {
    assert text + "" == text;
  }
}
