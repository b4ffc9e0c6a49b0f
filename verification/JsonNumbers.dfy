/** JSON texts (sections 2 to 7 of RFC 8259) and what the scanner makes of them. */
module JsonNumbers {
  import opened Common
  import opened Digits
  import opened JsonScanner

  // ---------------------------------------------------------------- numbers, section 6

  /** An empty fraction is absent. */
  datatype Number = Number(minus: bool, integer: string, fraction: string, exponent: Option<Exponent>)

  datatype Exponent = Exponent(mark: char, sign: string, digits: string)

  predicate ValidNumber(n: Number) {
    Shortest(n.integer) && AllDigits(n.fraction) && (n.exponent.Some? ==> ValidExponent(n.exponent.value))
  }

  predicate ValidExponent(e: Exponent) {
    && IsExponentMark(e.mark) && (e.sign == "" || e.sign == "+" || e.sign == "-")
    && e.digits != "" && AllDigits(e.digits)
  }

  function FractionText(fraction: string): string {
    if fraction == "" then "" else "." + fraction
  }

  function ExponentText(e: Option<Exponent>): string {
    match e
    case None => ""
    case Some(x) => [x.mark] + (x.sign + x.digits)
  }

  function Lexeme(n: Number): string {
    (if n.minus then "-" else "") + (n.integer + (FractionText(n.fraction) + ExponentText(n.exponent)))
  }

  /** What may follow a number without being taken for more of it. */
  predicate Ends(rest: string) {
    rest == "" || (!IsDigit(rest[0]) && rest[0] != '.' && !IsExponentMark(rest[0]))
  }

  lemma {:induction false} DigitRunStops(digits: string, rest: string)
    requires AllDigits(digits) && (rest != "" ==> !IsDigit(rest[0]))
    ensures DigitRun(digits + rest) == |digits|
  {
    if digits == "" {
      assert digits + rest == rest;
    } else {
      assert (digits + rest)[1..] == digits[1..] + rest;
      assert (digits + rest)[0] == digits[0];
      DigitRunStops(digits[1..], rest);
    }
  }

  lemma SignedRunStops(mark: char, sign: string, digits: string, rest: string)
    requires IsExponentMark(mark) && (sign == "" || sign == "+" || sign == "-")
    requires digits != "" && AllDigits(digits) && (rest != "" ==> !IsDigit(rest[0]))
    ensures ExponentRun([mark] + (sign + digits) + rest) == 1 + |sign| + |digits|
  {
    DigitRunStops(digits, rest);
    hide DigitRun;
    var s := [mark] + (sign + digits) + rest;
    var k := 1 + |sign|;
    assert s[k..] == digits + rest;
    assert s[1] == (sign + digits)[0];
    assert k == if |s| > 1 && IsSign(s[1]) then 2 else 1;
  }

  lemma ExponentRunStops(e: Option<Exponent>, rest: string)
    requires (e.Some? ==> ValidExponent(e.value)) && Ends(rest)
    ensures ExponentRun(ExponentText(e) + rest) == |ExponentText(e)|
  {
    match e
    case None =>
      assert "" + rest == rest;
    case Some(x) =>
      SignedRunStops(x.mark, x.sign, x.digits, rest);
  }

  lemma FractionRunStops(fraction: string, rest: string)
    requires AllDigits(fraction) && (rest != "" ==> !IsDigit(rest[0]) && rest[0] != '.')
    ensures FractionRun(FractionText(fraction) + rest) == |FractionText(fraction)|
  {
    if fraction == "" {
      assert "" + rest == rest;
    } else {
      DigitRunStops(fraction, rest);
      assert ("." + fraction + rest)[1..] == fraction + rest;
    }
  }

  lemma IntegerRunStops(integer: string, rest: string)
    requires Shortest(integer) && (rest != "" ==> !IsDigit(rest[0]))
    ensures IntegerRun(integer + rest) == |integer|
  {
    assert (integer + rest)[0] == integer[0];
    if integer[0] == '0' {
      assert |integer| == 1;
    } else {
      DigitRunStops(integer, rest);
    }
  }

  lemma Parts(m: string, i: string, f: string, x: string, rest: string)
    ensures var s := m + (i + (f + x)) + rest;
      && s[|m|..] == i + (f + (x + rest))
      && s[|m| + |i|..] == f + (x + rest)
      && s[|m| + |i| + |f|..] == x + rest
  {
    var s := m + (i + (f + x)) + rest;
    assert s == m + (i + (f + (x + rest)));
    var t := i + (f + (x + rest));
    assert s[|m|..] == t;
    assert s[|m| + |i|..] == t[|i|..] == f + (x + rest);
    assert s[|m| + |i| + |f|..] == t[|i|..][|f|..] == x + rest;
  }

  lemma RunOfParts(s: string, k: nat, i: nat, f: nat, x: nat)
    requires k + i + f <= |s| && i > 0 && k == if s != "" && s[0] == '-' then 1 else 0
    requires IntegerRun(s[k..]) == i && FractionRun(s[k + i..]) == f && ExponentRun(s[k + i + f..]) == x
    ensures NumberRun(s) == k + i + f + x
  {
    hide IntegerRun, FractionRun, ExponentRun;
  }

  lemma LexemeStarts(n: Number, rest: string)
    requires ValidNumber(n)
    ensures Lexeme(n) != "" && (Lexeme(n) + rest)[0] == Lexeme(n)[0] == (if n.minus then '-' else n.integer[0])
    ensures Lexeme(n)[0] == '-' || IsDigit(Lexeme(n)[0])
    ensures n.minus <==> Lexeme(n)[0] == '-'
  {
  }

  /** The scanner's pattern takes exactly a number's lexeme, whatever legal text follows. */
  lemma NumberRunIsLexeme(n: Number, rest: string)
    requires ValidNumber(n) && Ends(rest)
    ensures NumberRun(Lexeme(n) + rest) == |Lexeme(n)|
    ensures Lexeme(n) != "" && (Lexeme(n)[0] == '-' || IsDigit(Lexeme(n)[0]))
  {
    hide Lexeme, IntegerRun, FractionRun, ExponentRun, DigitRun, FractionText, ExponentText, NumberRun, AllDigits;
    var s := Lexeme(n) + rest;
    var k := if n.minus then 1 else 0;
    var f := FractionText(n.fraction);
    var x := ExponentText(n.exponent);
    LexemeStarts(n, rest);
    LexemeParts(n, rest, s);
    TailStarts(n, rest);
    IntegerRunStops(n.integer, s[k + |n.integer|..]);
    FractionRunStops(n.fraction, s[k + |n.integer| + |f|..]);
    ExponentRunStops(n.exponent, rest);
    RunOfParts(s, k, |n.integer|, |f|, |x|);
  }

  lemma LexemeParts(n: Number, rest: string, s: string)
    requires s == Lexeme(n) + rest
    ensures var k := if n.minus then 1 else 0;
      var f := FractionText(n.fraction);
      var x := ExponentText(n.exponent);
      && |s| == k + |n.integer| + |f| + |x| + |rest|
      && s[k..] == n.integer + s[k + |n.integer|..]
      && s[k + |n.integer|..] == f + s[k + |n.integer| + |f|..]
      && s[k + |n.integer| + |f|..] == x + rest
      && |Lexeme(n)| == k + |n.integer| + |f| + |x|
  {
    hide FractionText, ExponentText;
    Parts(if n.minus then "-" else "", n.integer, FractionText(n.fraction), ExponentText(n.exponent), rest);
  }

  /** What follows the integer and the fraction of a number does not extend them. */
  lemma TailStarts(n: Number, rest: string)
    requires ValidNumber(n) && Ends(rest)
    ensures var t := ExponentText(n.exponent) + rest; t != "" ==> !IsDigit(t[0]) && t[0] != '.'
    ensures var t := FractionText(n.fraction) + (ExponentText(n.exponent) + rest); t != "" ==> !IsDigit(t[0])
  {
  }

  // ---------------------------------------------------------------- values

  /** `raw` is the text between the quotes. */
  datatype Json =
    | Literal(word: string)
    | Num(number: Number)
    | Text(raw: string)
    | Arr(elements: seq<Element>, blank: string)
    | Obj(members: seq<Member>, blank: string)

  datatype Element = Element(before: string, value: Json, after: string)

  /** JSON has no bare keys; the scanner lets them pass. */
  datatype Key = Name(raw: string) | Bare(number: Number)

  datatype Member = Member(before: string, key: Key, beforeColon: string, element: Element)

  predicate Blank(s: string) {
    forall i :: 0 <= i < |s| ==> s[i] == ' ' || s[i] == '\t' || s[i] == '\n' || s[i] == '\r'
  }

  /** No quote and no lone backslash inside; every backslash escapes the character after it. */
  predicate RawString(s: string)
    decreases |s|
  {
    if s == "" then true
    else if s[0] == '\\' then |s| >= 2 && RawString(s[2..])
    else s[0] != '"' && RawString(s[1..])
  }

  predicate IsHex(c: char) {
    IsDigit(c) || 'a' <= c <= 'f' || 'A' <= c <= 'F'
  }

  /** The characters of a string, section 7. */
  predicate JsonString(s: string)
    decreases |s|
  {
    if s == "" then true
    else if s[0] != '\\' then s[0] >= ' ' && s[0] != '"' && JsonString(s[1..])
    else if |s| < 2 then false
    else if s[1] == 'u' then |s| >= 6 && IsHex(s[2]) && IsHex(s[3]) && IsHex(s[4]) && IsHex(s[5]) && JsonString(s[6..])
    else s[1] in "\"\\/bfnrt" && JsonString(s[2..])
  }

  lemma {:induction false} JsonStringIsRaw(s: string)
    requires JsonString(s)
    ensures RawString(s)
    decreases |s|
  {
    if s == "" {
    } else if s[0] != '\\' {
      JsonStringIsRaw(s[1..]);
    } else if s[1] == 'u' {
      JsonStringIsRaw(s[6..]);
      HexIsRaw(s, 5);
      HexIsRaw(s, 4);
      HexIsRaw(s, 3);
      HexIsRaw(s, 2);
    } else {
      JsonStringIsRaw(s[2..]);
    }
  }

  lemma HexIsRaw(s: string, i: nat)
    requires i < |s| && IsHex(s[i]) && RawString(s[i + 1..])
    ensures RawString(s[i..])
  {
    assert s[i..][1..] == s[i + 1..] && s[i..][0] == s[i];
  }

  /** A JSON value; with `bareKeys`, numbers are keys, too. */
  predicate ValidJson(v: Json, bareKeys: bool) {
    match v
    case Literal(word) => word == "true" || word == "false" || word == "null"
    case Num(n) => ValidNumber(n)
    case Text(raw) => JsonString(raw)
    case Arr(elements, blank) => Blank(blank) && forall e :: e in elements ==> ValidElement(e, bareKeys)
    case Obj(members, blank) => Blank(blank) && forall m :: m in members ==> ValidMember(m, bareKeys)
  }

  predicate ValidElement(e: Element, bareKeys: bool) {
    Blank(e.before) && ValidJson(e.value, bareKeys) && Blank(e.after)
  }

  predicate ValidKey(k: Key, bareKeys: bool) {
    match k
    case Name(raw) => JsonString(raw)
    case Bare(n) => bareKeys && ValidNumber(n)
  }

  predicate ValidMember(m: Member, bareKeys: bool) {
    Blank(m.before) && ValidKey(m.key, bareKeys) && Blank(m.beforeColon) && ValidElement(m.element, bareKeys)
  }

  function Print(v: Json): string {
    match v
    case Literal(word) => word
    case Num(n) => Lexeme(n)
    case Text(raw) => Quote(raw)
    case Arr(elements, blank) => "[" + ((if elements == [] then blank else PrintElements(elements)) + "]")
    case Obj(members, blank) => "{" + ((if members == [] then blank else PrintMembers(members)) + "}")
  }

  function PrintElement(e: Element): string {
    e.before + (Print(e.value) + e.after)
  }

  function PrintKey(k: Key): string {
    match k
    case Name(raw) => Quote(raw)
    case Bare(n) => Lexeme(n)
  }

  function PrintMember(m: Member): string {
    m.before + (PrintKey(m.key) + (m.beforeColon + (":" + PrintElement(m.element))))
  }

  function PrintElements(es: seq<Element>): string
    requires es != []
  {
    if |es| == 1 then PrintElement(es[0]) else PrintElement(es[0]) + ("," + PrintElements(es[1..]))
  }

  function PrintMembers(ms: seq<Member>): string
    requires ms != []
  {
    if |ms| == 1 then PrintMember(ms[0]) else PrintMember(ms[0]) + ("," + PrintMembers(ms[1..]))
  }

  /** The value with every number replaced by the string of its lexeme. */
  function NumbersAsText(v: Json): Json {
    match v
    case Num(n) => Text(Lexeme(n))
    case Arr(elements, blank) => Arr(ElementsAsText(elements), blank)
    case Obj(members, blank) => Obj(MembersAsText(members), blank)
    case _ => v
  }

  function ElementAsText(e: Element): Element {
    e.(value := NumbersAsText(e.value))
  }

  function ElementsAsText(es: seq<Element>): (r: seq<Element>)
    ensures |r| == |es|
  {
    if es == [] then [] else [ElementAsText(es[0])] + ElementsAsText(es[1..])
  }

  function KeyAsText(k: Key): Key {
    match k
    case Name(_) => k
    case Bare(n) => Name(Lexeme(n))
  }

  function MemberAsText(m: Member): Member {
    m.(key := KeyAsText(m.key), element := ElementAsText(m.element))
  }

  function MembersAsText(ms: seq<Member>): (r: seq<Member>)
    ensures |r| == |ms|
  {
    if ms == [] then [] else [MemberAsText(ms[0])] + MembersAsText(ms[1..])
  }

  // ---------------------------------------------------------------- the scanner on values

  /** After scanning `text` into `rewritten`, the scanner is outside again and goes on with the rest. */
  ghost predicate Rewrites(text: string, rewritten: string, rest: string) {
    Scan(text + rest, Outside) == Prefixed(rewritten, Scan(rest, Outside))
  }

  /** Characters outside strings and numbers. */
  predicate Plain(s: string) {
    forall i :: 0 <= i < |s| ==> s[i] != '"' && s[i] != '-' && !IsDigit(s[i])
  }

  lemma {:induction false} ScanPlain(s: string, rest: string)
    requires Plain(s)
    ensures Rewrites(s, s, rest)
  {
    if s == "" {
      assert s + rest == rest;
      PrefixedNothing(Scan(rest, Outside));
    } else {
      assert (s + rest)[1..] == s[1..] + rest && (s + rest)[..1] == s[..1] && (s + rest)[0] == s[0];
      ScanPlain(s[1..], rest);
      PrefixedTwice(s[..1], s[1..], Scan(rest, Outside));
      assert s[..1] + s[1..] == s;
    }
  }

  /** Rewriting two texts one after the other. */
  lemma Sequence(a: string, b: string, newA: string, newB: string, rest: string)
    requires Rewrites(a, newA, b + rest) && Rewrites(b, newB, rest)
    ensures Rewrites(a + b, newA + newB, rest)
  {
    assert a + b + rest == a + (b + rest);
    PrefixedTwice(newA, newB, Scan(rest, Outside));
  }

  lemma {:induction false} ScanRaw(raw: string, rest: string)
    requires RawString(raw)
    ensures Scan(raw + "\"" + rest, Quoted) == Prefixed(raw + "\"", Scan(rest, Outside))
    decreases |raw|
  {
    var s := raw + "\"" + rest;
    var end := Scan(rest, Outside);
    if raw == "" {
      assert s == "\"" + rest && s[1..] == rest && s[..1] == "\"";
      assert "" + "\"" == "\"";
    } else if raw[0] == '\\' {
      assert s[..1] == raw[..1] && s[1..][..1] == raw[1..2] && s[1..][1..] == raw[2..] + "\"" + rest;
      ScanRaw(raw[2..], rest);
      PrefixedTwice(raw[1..2], raw[2..] + "\"", end);
      PrefixedTwice(raw[..1], raw[1..2] + (raw[2..] + "\""), end);
      assert raw[..1] + (raw[1..2] + (raw[2..] + "\"")) == raw + "\"";
    } else {
      assert s[..1] == raw[..1] && s[1..] == raw[1..] + "\"" + rest;
      ScanRaw(raw[1..], rest);
      PrefixedTwice(raw[..1], raw[1..] + "\"", end);
      assert raw[..1] + (raw[1..] + "\"") == raw + "\"";
    }
  }

  lemma ScanText(raw: string, rest: string)
    requires JsonString(raw)
    ensures Rewrites(Quote(raw), Quote(raw), rest)
  {
    var s := Quote(raw) + rest;
    assert s[0] == '"' && s[..1] == "\"" && s[1..] == raw + "\"" + rest;
    JsonStringIsRaw(raw);
    ScanRaw(raw, rest);
    PrefixedTwice("\"", raw + "\"", Scan(rest, Outside));
    assert "\"" + (raw + "\"") == Quote(raw);
  }

  lemma ScanNumber(n: Number, rest: string)
    requires ValidNumber(n) && Ends(rest)
    ensures Rewrites(Lexeme(n), Quote(Lexeme(n)), rest)
  {
    NumberRunIsLexeme(n, rest);
    var s := Lexeme(n) + rest;
    assert s[0] == Lexeme(n)[0] && s[..|Lexeme(n)|] == Lexeme(n) && s[|Lexeme(n)|..] == rest;
  }

  lemma {:induction false} ScanValue(v: Json, bareKeys: bool, rest: string)
    requires ValidJson(v, bareKeys) && Ends(rest)
    ensures Rewrites(Print(v), Print(NumbersAsText(v)), rest)
    decreases v, 0
  {
    match v
    case Literal(word) => ScanPlain(word, rest);
    case Num(n) => ScanNumber(n, rest);
    case Text(raw) => ScanText(raw, rest);
    case Arr(elements, blank) =>
      var inner := if elements == [] then blank else PrintElements(elements);
      var newInner := if elements == [] then blank else PrintElements(ElementsAsText(elements));
      assert Rewrites(inner, newInner, "]" + rest) by {
        if elements == [] { ScanPlain(blank, "]" + rest); } else { ScanElements(elements, bareKeys, "]" + rest); }
      }
      Bracketed("[", inner, newInner, "]", rest);
    case Obj(members, blank) =>
      var inner := if members == [] then blank else PrintMembers(members);
      var newInner := if members == [] then blank else PrintMembers(MembersAsText(members));
      assert Rewrites(inner, newInner, "}" + rest) by {
        if members == [] { ScanPlain(blank, "}" + rest); } else { ScanMembers(members, bareKeys, "}" + rest); }
      }
      Bracketed("{", inner, newInner, "}", rest);
  }

  lemma Bracketed(open: string, inner: string, newInner: string, close: string, rest: string)
    requires Plain(open) && Plain(close) && Rewrites(inner, newInner, close + rest)
    ensures Rewrites(open + (inner + close), open + (newInner + close), rest)
  {
    ScanPlain(close, rest);
    Sequence(inner, close, newInner, close, rest);
    ScanPlain(open, inner + close + rest);
    Sequence(open, inner + close, open, newInner + close, rest);
  }

  lemma {:induction false} ScanElement(e: Element, bareKeys: bool, rest: string)
    requires ValidElement(e, bareKeys) && Ends(rest)
    ensures Rewrites(PrintElement(e), PrintElement(ElementAsText(e)), rest)
    decreases e, 1
  {
    ScanPlain(e.after, rest);
    ScanValue(e.value, bareKeys, e.after + rest);
    Sequence(Print(e.value), e.after, Print(NumbersAsText(e.value)), e.after, rest);
    ScanPlain(e.before, Print(e.value) + e.after + rest);
    Sequence(e.before, Print(e.value) + e.after, e.before, Print(NumbersAsText(e.value)) + e.after, rest);
  }

  lemma ScanKey(k: Key, bareKeys: bool, rest: string)
    requires ValidKey(k, bareKeys) && Ends(rest)
    ensures Rewrites(PrintKey(k), PrintKey(KeyAsText(k)), rest)
  {
    match k
    case Name(raw) => ScanText(raw, rest);
    case Bare(n) => ScanNumber(n, rest);
  }

  lemma ColonEnds(blank: string, rest: string)
    requires Blank(blank)
    ensures Ends(blank + (":" + rest))
  {
  }

  lemma {:induction false} ScanMember(m: Member, bareKeys: bool, rest: string)
    requires ValidMember(m, bareKeys) && Ends(rest)
    ensures Rewrites(PrintMember(m), PrintMember(MemberAsText(m)), rest)
    decreases m, 2
  {
    var a := PrintElement(m.element);
    var newA := PrintElement(ElementAsText(m.element));
    ScanElement(m.element, bareKeys, rest);
    ScanPlain(":", a + rest);
    Sequence(":", a, ":", newA, rest);
    ScanPlain(m.beforeColon, ":" + a + rest);
    Sequence(m.beforeColon, ":" + a, m.beforeColon, ":" + newA, rest);
    var b := m.beforeColon + (":" + a);
    var newB := m.beforeColon + (":" + newA);
    var k, newK := PrintKey(m.key), PrintKey(KeyAsText(m.key));
    ColonEnds(m.beforeColon, a + rest);
    assert b + rest == m.beforeColon + (":" + (a + rest));
    ScanKey(m.key, bareKeys, b + rest);
    Sequence(k, b, newK, newB, rest);
    ScanPlain(m.before, k + b + rest);
    Sequence(m.before, k + b, m.before, newK + newB, rest);
  }

  lemma {:induction false} ScanElements(es: seq<Element>, bareKeys: bool, rest: string)
    requires es != [] && (forall e :: e in es ==> ValidElement(e, bareKeys)) && Ends(rest)
    ensures Rewrites(PrintElements(es), PrintElements(ElementsAsText(es)), rest)
    decreases es, 0
  {
    if |es| == 1 {
      ScanElement(es[0], bareKeys, rest);
      assert ElementsAsText(es) == [ElementAsText(es[0])];
    } else {
      var more := PrintElements(es[1..]);
      var newMore := PrintElements(ElementsAsText(es[1..]));
      ScanElements(es[1..], bareKeys, rest);
      ScanPlain(",", more + rest);
      Sequence(",", more, ",", newMore, rest);
      ScanElement(es[0], bareKeys, "," + more + rest);
      Sequence(PrintElement(es[0]), "," + more, PrintElement(ElementAsText(es[0])), "," + newMore, rest);
      assert ElementsAsText(es)[0] == ElementAsText(es[0]) && ElementsAsText(es)[1..] == ElementsAsText(es[1..]);
    }
  }

  lemma {:induction false} ScanMembers(ms: seq<Member>, bareKeys: bool, rest: string)
    requires ms != [] && (forall m :: m in ms ==> ValidMember(m, bareKeys)) && Ends(rest)
    ensures Rewrites(PrintMembers(ms), PrintMembers(MembersAsText(ms)), rest)
    decreases ms, 0
  {
    var first := MemberAsText(ms[0]);
    if |ms| == 1 {
      ScanMember(ms[0], bareKeys, rest);
      assert MembersAsText(ms) == [first];
    } else {
      var more := PrintMembers(ms[1..]);
      var newMore := PrintMembers(MembersAsText(ms[1..]));
      ScanMembers(ms[1..], bareKeys, rest);
      ScanPlain(",", more + rest);
      Sequence(",", more, ",", newMore, rest);
      ScanMember(ms[0], bareKeys, "," + more + rest);
      Sequence(PrintMember(ms[0]), "," + more, PrintMember(first), "," + newMore, rest);
      assert MembersAsText(ms)[0] == first && MembersAsText(ms)[1..] == MembersAsText(ms[1..]);
    }
  }

  /**
   * For every JSON text, and every text that is JSON but for bare number keys, the scanner's rewriting is the text
   * of the same value with each number, keys included, replaced by the string of its exact lexeme; strings,
   * escapes, other keys, literals and white space are unchanged.
   */
  lemma RewritesEveryJson(before: string, v: Json, after: string, bareKeys: bool)
    requires Blank(before) && ValidJson(v, bareKeys) && Blank(after)
    ensures Scan(PrintElement(Element(before, v, after)), Outside) == Some(PrintElement(Element(before, NumbersAsText(v), after)))
  {
    var e := Element(before, v, after);
    ScanElement(e, bareKeys, "");
    assert PrintElement(e) + "" == PrintElement(e);
    assert PrintElement(ElementAsText(e)) + "" == PrintElement(ElementAsText(e));
  }

  // ---------------------------------------------------------------- what rewriting leaves

  predicate NumberFree(v: Json) {
    match v
    case Num(_) => false
    case Arr(elements, _) => forall e :: e in elements ==> NumberFree(e.value)
    case Obj(members, _) => forall m :: m in members ==> m.key.Name? && NumberFree(m.element.value)
    case _ => true
  }

  lemma LexemeIsString(n: Number)
    requires ValidNumber(n)
    ensures JsonString(Lexeme(n)) && Unescaped(Lexeme(n))
  {
    AllUnescaped(Lexeme(n));
  }

  /** Printable characters that stand for themselves inside a string. */
  predicate Unescaped(s: string) {
    forall i :: 0 <= i < |s| ==> s[i] >= ' ' && s[i] != '"' && s[i] != '\\'
  }

  lemma {:induction false} AllUnescaped(s: string)
    requires Unescaped(s)
    ensures JsonString(s)
  {
    if s != "" {
      AllUnescaped(s[1..]);
    }
  }

  /** The rewritten value is valid JSON without any number, and without bare keys. */
  lemma {:induction false} NumbersAsTextValid(v: Json, bareKeys: bool)
    requires ValidJson(v, bareKeys)
    ensures ValidJson(NumbersAsText(v), false) && NumberFree(NumbersAsText(v))
    decreases v, 1
  {
    match v
    case Num(n) => LexemeIsString(n);
    case Arr(elements, _) => ElementsAsTextValid(elements, bareKeys);
    case Obj(members, _) => MembersAsTextValid(members, bareKeys);
    case _ =>
  }

  lemma {:induction false} ElementsAsTextValid(es: seq<Element>, bareKeys: bool)
    requires forall e :: e in es ==> ValidElement(e, bareKeys)
    ensures forall e :: e in ElementsAsText(es) ==> ValidElement(e, false) && NumberFree(e.value)
    decreases es, 0
  {
    if es != [] {
      assert es[0] in es;
      NumbersAsTextValid(es[0].value, bareKeys);
      ElementsAsTextValid(es[1..], bareKeys);
    }
  }

  lemma {:induction false} MemberAsTextValid(m: Member, bareKeys: bool)
    requires ValidMember(m, bareKeys)
    ensures FreeMember(MemberAsText(m))
    decreases m, 2
  {
    assert ValidElement(m.element, bareKeys);
    NumbersAsTextValid(m.element.value, bareKeys);
    KeyAsTextValid(m.key, bareKeys);
  }

  predicate FreeMember(m: Member) {
    ValidMember(m, false) && m.key.Name? && NumberFree(m.element.value)
  }

  lemma {:induction false} MembersAsTextValid(ms: seq<Member>, bareKeys: bool)
    requires forall m :: m in ms ==> ValidMember(m, bareKeys)
    ensures forall m :: m in MembersAsText(ms) ==> FreeMember(m)
    decreases ms, 0
  {
    hide FreeMember, ValidMember, MemberAsText;
    if ms != [] {
      MemberAsTextValid(ms[0], bareKeys);
      MembersAsTextValid(ms[1..], bareKeys);
    }
  }

  lemma KeyAsTextValid(k: Key, bareKeys: bool)
    requires ValidKey(k, bareKeys)
    ensures ValidKey(KeyAsText(k), false) && KeyAsText(k).Name?
  {
    if k.Bare? {
      LexemeIsString(k.number);
    }
  }
}
