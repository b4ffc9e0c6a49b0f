/** Which texts the scanner turns into JSON: reading the original value back from the rewritten one. */
module JsonTexts {
  import opened Common
  import opened Digits
  import opened JsonScanner
  import opened JsonNumbers

  /** The text is a JSON value with white space around it; with `bareKeys`, keys may also be bare numbers. */
  ghost predicate IsJson(s: string, bareKeys: bool) {
    exists e :: ValidElement(e, bareKeys) && s == PrintElement(e)
  }

  // ---------------------------------------------------------------- numbers

  lemma DigitPart(s: string)
    ensures AllDigits(s[..DigitRun(s)])
  {
  }

  lemma IntegerPart(s: string)
    requires IntegerRun(s) > 0
    ensures Shortest(s[..IntegerRun(s)])
  {
    DigitPart(s);
  }

  lemma FractionPart(s: string) returns (fraction: string)
    ensures AllDigits(fraction) && FractionText(fraction) == s[..FractionRun(s)]
  {
    if FractionRun(s) == 0 {
      fraction := "";
    } else {
      DigitPart(s[1..]);
      fraction := s[1..][..DigitRun(s[1..])];
      assert s[..FractionRun(s)] == "." + fraction;
    }
  }

  lemma ExponentPart(s: string) returns (e: Option<Exponent>)
    ensures (e.Some? ==> ValidExponent(e.value)) && ExponentText(e) == s[..ExponentRun(s)]
  {
    if ExponentRun(s) == 0 {
      e := None;
    } else {
      var k := if |s| > 1 && IsSign(s[1]) then 2 else 1;
      DigitPart(s[k..]);
      var digits := s[k..][..DigitRun(s[k..])];
      e := Some(Exponent(s[0], s[1..k], digits));
      assert s[..ExponentRun(s)] == [s[0]] + (s[1..k] + digits);
    }
  }

  /** How long the parts of a number at the start of a text are. */
  function RunParts(s: string): (nat, nat, nat, nat) {
    var k := if s != "" && s[0] == '-' then 1 else 0;
    var i := IntegerRun(s[k..]);
    var f := FractionRun(s[k + i..]);
    (k, i, f, ExponentRun(s[k + i + f..]))
  }

  lemma RunPartsAdd(s: string)
    requires NumberRun(s) > 0
    ensures var (k, i, f, x) := RunParts(s);
            && i > 0 && NumberRun(s) == k + i + f + x <= |s| && s[..k] == (if k == 1 then "-" else "")
            && i == IntegerRun(s[k..]) && f == FractionRun(s[k + i..]) && x == ExponentRun(s[k + i + f..])
            && s[..NumberRun(s)] == s[..k] + (s[k..][..i] + (s[k + i..][..f] + s[k + i + f..][..x]))
  {
    hide IntegerRun, FractionRun, ExponentRun;
  }

  /** Whatever the pattern takes is a number's lexeme. */
  lemma NumberRunReads(s: string) returns (n: Number)
    requires NumberRun(s) > 0
    ensures ValidNumber(n) && Lexeme(n) == s[..NumberRun(s)]
  {
    RunPartsAdd(s);
    var (k, i, f, x) := RunParts(s);
    hide NumberRun, RunParts, Lexeme, FractionText, ExponentText, IntegerRun, FractionRun, ExponentRun, Shortest, AllDigits, ValidExponent;
    IntegerPart(s[k..]);
    var fraction := FractionPart(s[k + i..]);
    var exponent := ExponentPart(s[k + i + f..]);
    n := Number(k == 1, s[k..][..i], fraction, exponent);
    Assembled(n, s[..k], s[k..][..i], s[k + i..][..f], s[k + i + f..][..x]);
  }

  lemma Assembled(n: Number, minus: string, integer: string, fraction: string, exponent: string)
    requires minus == (if n.minus then "-" else "") && integer == n.integer
    requires fraction == FractionText(n.fraction) && exponent == ExponentText(n.exponent)
    ensures Lexeme(n) == minus + (integer + (fraction + exponent))
  {
  }

  // ---------------------------------------------------------------- undoing a scan

  /** Scanning `text` gives `front` and then what scanning `rest` gives. */
  ghost predicate Unscans(text: string, front: string, rest: string, tail: string) {
    text == front + rest && Scan(rest, Outside) == Some(tail)
  }

  /** Outside strings the scanner only writes quoted numbers, quotes, and the characters it read. */
  lemma OutsideHead(text: string, out: string)
    requires Scan(text, Outside) == Some(out) && out != ""
    ensures text != "" && !StartsNumber(out[0])
    ensures out[0] != '"' ==> text[0] == out[0] && Scan(text[1..], Outside) == Some(out[1..])
  {
    if text[0] != '"' && !StartsNumber(text[0]) {
      assert out[1..] == Scan(text[1..], Outside).value;
    }
  }

  lemma {:induction false} UnscanPlain(text: string, front: string, tail: string) returns (rest: string)
    requires Scan(text, Outside) == Some(front + tail) && '"' !in front
    ensures Unscans(text, front, rest, tail)
  {
    if front == "" {
      rest := text;
      assert front + tail == tail && "" + rest == rest;
    } else {
      OutsideHead(text, front + tail);
      assert (front + tail)[1..] == front[1..] + tail;
      hide Scan;
      rest := UnscanPlain(text[1..], front[1..], tail);
      assert text == [text[0]] + text[1..] && front == [front[0]] + front[1..];
    }
  }

  lemma {:induction false} UnscanRaw(text: string, raw: string, tail: string) returns (rest: string)
    requires RawString(raw) && Scan(text, Quoted) == Some(raw + "\"" + tail)
    ensures Unscans(text, raw + "\"", rest, tail)
    decreases |raw|
  {
    var out := raw + "\"" + tail;
    QuotedHead(text, out);
    if raw == "" {
      rest := text[1..];
      assert out[1..] == tail && text == "\"" + rest;
    } else if raw[0] == '\\' {
      EscapedHead(text[1..], out[1..]);
      assert out[1..][1..] == raw[2..] + "\"" + tail;
      rest := UnscanRaw(text[1..][1..], raw[2..], tail);
      assert text == [raw[0]] + ([raw[1]] + text[1..][1..]) && raw == [raw[0]] + ([raw[1]] + raw[2..]);
      assert text == raw + "\"" + rest;
    } else {
      assert out[1..] == raw[1..] + "\"" + tail;
      rest := UnscanRaw(text[1..], raw[1..], tail);
      assert text == [raw[0]] + text[1..] && raw == [raw[0]] + raw[1..];
      assert text == raw + "\"" + rest;
    }
  }

  lemma QuotedHead(text: string, out: string)
    requires Scan(text, Quoted) == Some(out) && out != ""
    ensures text != "" && text[0] == out[0]
    ensures Scan(text[1..], if out[0] == '\\' then Escaped else if out[0] == '"' then Outside else Quoted) == Some(out[1..])
  {
    var next := if text[0] == '\\' then Escaped else if text[0] == '"' then Outside else Quoted;
    assert out[1..] == Scan(text[1..], next).value;
  }

  lemma EscapedHead(text: string, out: string)
    requires Scan(text, Escaped) == Some(out) && out != ""
    ensures text != "" && text[0] == out[0] && Scan(text[1..], Quoted) == Some(out[1..])
  {
    assert out[1..] == Scan(text[1..], Quoted).value;
  }

  /** A string without escapes ends at the first quote. */
  lemma {:induction false} FirstQuote(a: string, x: string, raw: string, y: string)
    requires Unescaped(a) && RawString(raw) && a + "\"" + x == raw + "\"" + y
    ensures a == raw && x == y
  {
    var s := a + "\"" + x;
    if a == "" {
      assert s[0] == '"';
      assert raw == "";
      assert s[1..] == x && s[1..] == y;
    } else {
      assert s[0] == a[0];
      assert raw != "";
      assert raw[0] == a[0];
      assert s[1..] == a[1..] + "\"" + x == raw[1..] + "\"" + y;
      FirstQuote(a[1..], x, raw[1..], y);
      assert a == [a[0]] + a[1..] && raw == [raw[0]] + raw[1..];
    }
  }

  /** A string in the rewritten text was a string, or the number it spells. */
  lemma UnscanText(text: string, raw: string, tail: string) returns (bare: Option<Number>, rest: string)
    requires JsonString(raw) && Scan(text, Outside) == Some(Quote(raw) + tail)
    ensures match bare
            case None => Unscans(text, Quote(raw), rest, tail)
            case Some(n) => ValidNumber(n) && Lexeme(n) == raw && Unscans(text, raw, rest, tail)
  {
    JsonStringIsRaw(raw);
    var out := Quote(raw) + tail;
    assert out[0] == '"' && out[1..] == raw + "\"" + tail;
    OutsideQuote(text, out);
    hide Scan, NumberRun, Lexeme, JsonString, RawString;
    if text[0] == '"' {
      rest := UnscanRaw(text[1..], raw, tail);
      bare := None;
      assert text == "\"" + text[1..];
      assert text == Quote(raw) + rest;
    } else {
      var n: Number;
      n, rest := UnscanNumber(text, raw, tail);
      bare := Some(n);
    }
  }

  lemma UnscanNumber(text: string, raw: string, tail: string) returns (n: Number, rest: string)
    requires RawString(raw) && NumberRun(text) > 0 && Scan(text[NumberRun(text)..], Outside).Some?
    requires Quote(raw) + tail == Quote(text[..NumberRun(text)]) + Scan(text[NumberRun(text)..], Outside).value
    ensures ValidNumber(n) && Lexeme(n) == raw && Unscans(text, raw, rest, tail)
  {
    n := NumberRunReads(text);
    LexemeIsString(n);
    rest := text[NumberRun(text)..];
    hide Lexeme, Scan, NumberRun, Quote, RawString;
    SameQuoted(Lexeme(n), Scan(rest, Outside).value, raw, tail);
    assert text == text[..NumberRun(text)] + rest;
  }

  lemma SameQuoted(a: string, x: string, raw: string, y: string)
    requires Unescaped(a) && RawString(raw) && Quote(raw) + y == Quote(a) + x
    ensures a == raw && x == y
  {
    assert (Quote(raw) + y)[1..] == raw + "\"" + y;
    assert (Quote(a) + x)[1..] == a + "\"" + x;
    FirstQuote(a, x, raw, y);
  }

  lemma OutsideQuote(text: string, out: string)
    requires Scan(text, Outside) == Some(out) && out != "" && out[0] == '"'
    ensures text != ""
    ensures text[0] == '"' ==> Scan(text[1..], Quoted) == Some(out[1..])
    ensures text[0] != '"' ==>
              && NumberRun(text) > 0 && Scan(text[NumberRun(text)..], Outside).Some?
              && out == Quote(text[..NumberRun(text)]) + Scan(text[NumberRun(text)..], Outside).value
  {
    if text[0] == '"' {
      assert out[1..] == Scan(text[1..], Quoted).value;
    }
  }

  // ---------------------------------------------------------------- undoing a value

  lemma NoQuotes(s: string)
    requires Blank(s) || s == "true" || s == "false" || s == "null"
    ensures '"' !in s
  {
  }

  lemma {:induction false} UnscanValue(w: Json, text: string, tail: string) returns (v: Json, rest: string)
    requires ValidJson(w, false) && Scan(text, Outside) == Some(Print(w) + tail)
    ensures ValidJson(v, true) && NumbersAsText(v) == w && Unscans(text, Print(v), rest, tail)
    decreases w, 0
  {
    match w
    case Literal(word) =>
      NoQuotes(word);
      rest := UnscanPlain(text, word, tail);
      v := w;
    case Num(n) =>
      LexemeStarts(n, tail);
      OutsideHead(text, Lexeme(n) + tail);
      assert false;
    case Text(raw) =>
      var bare: Option<Number>;
      bare, rest := UnscanText(text, raw, tail);
      v := if bare.Some? then Num(bare.value) else w;
    case Arr(elements, blank) =>
      var inner := if elements == [] then blank else PrintElements(elements);
      assert Print(w) + tail == "[" + (inner + ("]" + tail));
      var body := UnscanPlain(text, "[", inner + ("]" + tail));
      var es, end := UnscanElementList(elements, blank, body, "]" + tail);
      rest := UnscanPlain(end, "]", tail);
      v := Arr(es, blank);
      var newInner := if es == [] then blank else PrintElements(es);
      assert Print(v) == "[" + (newInner + "]");
      Rejoin(text, "[", body, newInner, end, "]", rest);
    case Obj(members, blank) =>
      var inner := if members == [] then blank else PrintMembers(members);
      assert Print(w) + tail == "{" + (inner + ("}" + tail));
      var body := UnscanPlain(text, "{", inner + ("}" + tail));
      var ms, end := UnscanMemberList(members, blank, body, "}" + tail);
      rest := UnscanPlain(end, "}", tail);
      v := Obj(ms, blank);
      var newInner := if ms == [] then blank else PrintMembers(ms);
      assert Print(v) == "{" + (newInner + "}");
      Rejoin(text, "{", body, newInner, end, "}", rest);
  }

  lemma Rejoin(text: string, open: string, body: string, inner: string, end: string, close: string, rest: string)
    requires text == open + body && body == inner + end && end == close + rest
    ensures text == open + (inner + close) + rest
  {
  }

  lemma {:induction false} UnscanElementList(es: seq<Element>, blank: string, text: string, tail: string)
    returns (was: seq<Element>, rest: string)
    requires Blank(blank) && (forall e :: e in es ==> ValidElement(e, false))
    requires Scan(text, Outside) == Some((if es == [] then blank else PrintElements(es)) + tail)
    ensures (forall e :: e in was ==> ValidElement(e, true)) && ElementsAsText(was) == es
    ensures Unscans(text, if was == [] then blank else PrintElements(was), rest, tail)
    decreases es, 1
  {
    if es == [] {
      NoQuotes(blank);
      rest := UnscanPlain(text, blank, tail);
      was := [];
    } else {
      was, rest := UnscanElements(es, text, tail);
    }
  }

  lemma {:induction false} UnscanMemberList(ms: seq<Member>, blank: string, text: string, tail: string)
    returns (was: seq<Member>, rest: string)
    requires Blank(blank) && (forall m :: m in ms ==> ValidMember(m, false))
    requires Scan(text, Outside) == Some((if ms == [] then blank else PrintMembers(ms)) + tail)
    ensures (forall m :: m in was ==> ValidMember(m, true)) && MembersAsText(was) == ms
    ensures Unscans(text, if was == [] then blank else PrintMembers(was), rest, tail)
    decreases ms, 1
  {
    if ms == [] {
      NoQuotes(blank);
      rest := UnscanPlain(text, blank, tail);
      was := [];
    } else {
      was, rest := UnscanMembers(ms, text, tail);
    }
  }

  lemma {:induction false} UnscanElement(e: Element, text: string, tail: string) returns (was: Element, rest: string)
    requires ValidElement(e, false) && Scan(text, Outside) == Some(PrintElement(e) + tail)
    ensures ValidElement(was, true) && ElementAsText(was) == e && Unscans(text, PrintElement(was), rest, tail)
    decreases e, 1
  {
    NoQuotes(e.before);
    NoQuotes(e.after);
    assert PrintElement(e) + tail == e.before + (Print(e.value) + (e.after + tail));
    var a := UnscanPlain(text, e.before, Print(e.value) + (e.after + tail));
    var v, b := UnscanValue(e.value, a, e.after + tail);
    rest := UnscanPlain(b, e.after, tail);
    was := Element(e.before, v, e.after);
    Rejoin(text, e.before, a, Print(v), b, e.after, rest);
  }

  lemma {:induction false} UnscanElements(es: seq<Element>, text: string, tail: string) returns (was: seq<Element>, rest: string)
    requires es != [] && (forall e :: e in es ==> ValidElement(e, false))
    requires Scan(text, Outside) == Some(PrintElements(es) + tail)
    ensures was != [] && (forall e :: e in was ==> ValidElement(e, true)) && ElementsAsText(was) == es
    ensures Unscans(text, PrintElements(was), rest, tail)
    decreases es, 0
  {
    hide PrintElement, ValidElement, ElementAsText, Scan;
    if |es| == 1 {
      var first: Element;
      first, rest := UnscanElement(es[0], text, tail);
      was := [first];
      assert ElementsAsText(was) == [ElementAsText(first)] == es;
    } else {
      var more := PrintElements(es[1..]);
      assert PrintElements(es) + tail == PrintElement(es[0]) + ("," + (more + tail));
      var first, a := UnscanElement(es[0], text, "," + (more + tail));
      var b := UnscanPlain(a, ",", more + tail);
      var others: seq<Element>;
      others, rest := UnscanElements(es[1..], b, tail);
      was := [first] + others;
      assert was[1..] == others;
      assert es == [es[0]] + es[1..];
      Rejoin(text, PrintElement(first), a, ",", b, PrintElements(others), rest);
    }
  }

  lemma {:induction false} UnscanMember(m: Member, text: string, tail: string) returns (was: Member, rest: string)
    requires ValidMember(m, false) && Scan(text, Outside) == Some(PrintMember(m) + tail)
    ensures ValidMember(was, true) && MemberAsText(was) == m && Unscans(text, PrintMember(was), rest, tail)
    decreases m, 2
  {
    NoQuotes(m.before);
    NoQuotes(m.beforeColon);
    var value := PrintElement(m.element);
    assert PrintMember(m) + tail == m.before + (Quote(m.key.raw) + (m.beforeColon + (":" + (value + tail))));
    var a := UnscanPlain(text, m.before, Quote(m.key.raw) + (m.beforeColon + (":" + (value + tail))));
    var bare, b := UnscanText(a, m.key.raw, m.beforeColon + (":" + (value + tail)));
    var c := UnscanPlain(b, m.beforeColon, ":" + (value + tail));
    var d := UnscanPlain(c, ":", value + tail);
    var element: Element;
    element, rest := UnscanElement(m.element, d, tail);
    var key := if bare.Some? then Bare(bare.value) else m.key;
    was := Member(m.before, key, m.beforeColon, element);
    RejoinMember(text, m.before, a, PrintKey(key), b, m.beforeColon, c, d, PrintElement(element), rest);
  }

  lemma RejoinMember(text: string, before: string, a: string, key: string, b: string, blank: string, c: string, d: string,
                     value: string, rest: string)
    requires text == before + a && a == key + b && b == blank + c && c == ":" + d && d == value + rest
    ensures text == before + (key + (blank + (":" + value))) + rest
  {
  }

  lemma {:induction false} UnscanMembers(ms: seq<Member>, text: string, tail: string) returns (was: seq<Member>, rest: string)
    requires ms != [] && (forall m :: m in ms ==> ValidMember(m, false))
    requires Scan(text, Outside) == Some(PrintMembers(ms) + tail)
    ensures was != [] && (forall m :: m in was ==> ValidMember(m, true)) && MembersAsText(was) == ms
    ensures Unscans(text, PrintMembers(was), rest, tail)
    decreases ms, 0
  {
    hide PrintMember, ValidMember, MemberAsText, Scan;
    if |ms| == 1 {
      var first: Member;
      first, rest := UnscanMember(ms[0], text, tail);
      was := [first];
      assert MembersAsText(was) == [MemberAsText(first)] == ms;
    } else {
      var more := PrintMembers(ms[1..]);
      assert PrintMembers(ms) + tail == PrintMember(ms[0]) + ("," + (more + tail));
      var first, a := UnscanMember(ms[0], text, "," + (more + tail));
      var b := UnscanPlain(a, ",", more + tail);
      var others: seq<Member>;
      others, rest := UnscanMembers(ms[1..], b, tail);
      was := [first] + others;
      assert was[1..] == others;
      assert ms == [ms[0]] + ms[1..];
      Rejoin(text, PrintMember(first), a, ",", b, PrintMembers(others), rest);
    }
  }

  // ---------------------------------------------------------------- which texts pass

  /** The value behind a rewritten JSON text. */
  lemma ReadBack(text: string, w: Element) returns (e: Element)
    requires ValidElement(w, false) && Scan(text, Outside) == Some(PrintElement(w))
    ensures ValidElement(e, true) && text == PrintElement(e) && ElementAsText(e) == w
  {
    assert PrintElement(w) + "" == PrintElement(w);
    var rest;
    e, rest := UnscanElement(w, text, "");
    if rest != "" {
      ScanGrows(rest);
      assert false;
    }
    assert PrintElement(e) + "" == PrintElement(e);
  }

  lemma ScanGrows(text: string)
    requires text != "" && Scan(text, Outside).Some?
    ensures Scan(text, Outside).value != ""
  {
  }

  /** The scanner's result is JSON exactly when the text was JSON but for bare number keys. */
  lemma PassesExactly(text: string)
    ensures Scan(text, Outside).Some? && IsJson(Scan(text, Outside).value, false) <==> IsJson(text, true)
  {
    if IsJson(text, true) {
      var e :| ValidElement(e, true) && text == PrintElement(e);
      RewritesEveryJson(e.before, e.value, e.after, true);
      NumbersAsTextValid(e.value, true);
      assert ValidElement(ElementAsText(e), false);
    }
    if Scan(text, Outside).Some? && IsJson(Scan(text, Outside).value, false) {
      var w :| ValidElement(w, false) && Scan(text, Outside).value == PrintElement(w);
      var e := ReadBack(text, w);
      assert ValidElement(e, true);
    }
  }

  // ---------------------------------------------------------------- and are no JSON

  lemma ObjectStart(e: Element, text: string)
    requires ValidElement(e, false) && text == PrintElement(e) && |text| >= 2 && text[0] == '{'
    ensures !StartsNumber(text[1])
  {
    var printed := Print(e.value);
    ElementStart(e);
    ValueStart(e.value);
    assert text == printed + e.after && text[0] == printed[0] && text[1] == printed[1];
  }

  lemma ElementStart(e: Element)
    requires Blank(e.before) && PrintElement(e) != "" && PrintElement(e)[0] == '{'
    ensures e.before == ""
  {
  }

  lemma ValueStart(v: Json)
    requires ValidJson(v, false)
    ensures Print(v) != "" && (Print(v)[0] == '{' ==> |Print(v)| >= 2 && !StartsNumber(Print(v)[1]))
  {
    match v
    case Num(n) => LexemeStarts(n, "");
    case Obj(members, blank) =>
      if members != [] {
        assert ValidMember(members[0], false);
        MembersStart(members);
        assert Print(v)[1] == PrintMembers(members)[0];
      } else {
        assert Print(v)[1] == if blank == "" then '}' else blank[0];
      }
    case _ =>
  }

  lemma MembersStart(ms: seq<Member>)
    requires ms != [] && ValidMember(ms[0], false)
    ensures PrintMembers(ms) != "" && !StartsNumber(PrintMembers(ms)[0])
  {
    var m := ms[0];
    assert PrintMember(m) != "" && PrintMember(m)[0] == if m.before == "" then '"' else m.before[0];
    assert PrintMembers(ms)[0] == PrintMember(m)[0];
  }

  /** An object with a bare number key. */
  function BareKeyed(n: Number, e: Element): Json {
    Obj([Member("", Bare(n), "", e)], "")
  }

  lemma BareKeyedText(n: Number, e: Element)
    ensures Print(BareKeyed(n, e)) == "{" + (Lexeme(n) + (":" + PrintElement(e)) + "}")
    ensures NumbersAsText(BareKeyed(n, e)) == Obj([Member("", Name(Lexeme(n)), "", ElementAsText(e))], "")
  {
    hide Lexeme;
    var m := Member("", Bare(n), "", e);
    assert PrintMember(m) == Lexeme(n) + (":" + PrintElement(e));
    assert PrintMembers([m]) == PrintMember(m);
    assert MembersAsText([m]) == [MemberAsText(m)];
  }

  lemma BareKeyIsNotJson(n: Number, rest: string)
    requires ValidNumber(n)
    ensures !IsJson("{" + (Lexeme(n) + rest), false)
  {
    var text := "{" + (Lexeme(n) + rest);
    LexemeStarts(n, rest);
    hide Lexeme;
    assert text[0] == '{' && text[1] == (Lexeme(n) + rest)[0];
    if x :| ValidElement(x, false) && text == PrintElement(x) {
      ObjectStart(x, text);
    }
  }

  /** An object whose key is a bare number is no JSON text, but passes the scanner, its key made a string. */
  lemma NumericKeysPass(n: Number, e: Element)
    requires ValidNumber(n) && ValidElement(e, true)
    ensures var text := Print(BareKeyed(n, e));
            && text == "{" + (Lexeme(n) + (":" + PrintElement(e)) + "}")
            && !IsJson(text, false)
            && Scan(text, Outside) == Some(Print(Obj([Member("", Name(Lexeme(n)), "", ElementAsText(e))], "")))
            && IsJson(Scan(text, Outside).value, false)
  {
    var o := BareKeyed(n, e);
    BareKeyedText(n, e);
    var rest := ":" + PrintElement(e);
    assert Lexeme(n) + rest + "}" == Lexeme(n) + (rest + "}");
    BareKeyIsNotJson(n, rest + "}");
    assert ValidMember(o.members[0], true);
    assert ValidElement(Element("", o, ""), true);
    hide Lexeme, NumbersAsText, BareKeyed, ElementAsText, ValidJson;
    BlankPrint(o);
    BlankPrint(NumbersAsText(o));
    RewritesEveryJson("", o, "", true);
    PassesExactly(Print(o));
  }

  lemma BlankPrint(v: Json)
    ensures PrintElement(Element("", v, "")) == Print(v)
  {
  }
}
