/** Percent-encoding of one id segment (section 2.1 of RFC 3986, as `encodeURIComponent` and `decodeURIComponent` do it).
    Raw text is a sequence of UTF-16 code units. */
module PercentSegments {
  import opened Common

  type Unit = u: int | 0 <= u < 0x1_0000

  type Byte = b: int | 0 <= b < 256

  predicate Surrogate(u: Unit) {
    0xD800 <= u < 0xE000
  }

  predicate Alphanumeric(c: char) {
    '0' <= c <= '9' || 'A' <= c <= 'Z' || 'a' <= c <= 'z'
  }

  /** The characters an encoded segment is documented to keep. */
  predicate Documented(c: char) {
    Alphanumeric(c) || c == '_' || c == '-' || c == '.'
  }

  /** The further characters `encodeURIComponent` leaves alone. */
  predicate Mark(c: char) {
    c == '!' || c == '~' || c == '*' || c == '\'' || c == '(' || c == ')'
  }

  predicate Kept(c: char) {
    Documented(c) || Mark(c)
  }

  function HexDigit(n: int): (c: char)
    requires 0 <= n < 16
    ensures Alphanumeric(c)
  {
    if n < 10 then '0' + n as char else 'A' + (n - 10) as char
  }

  function HexValue(c: char): Option<int> {
    if '0' <= c <= '9' then Some((c - '0') as int)
    else if 'A' <= c <= 'F' then Some((c - 'A') as int + 10)
    else if 'a' <= c <= 'f' then Some((c - 'a') as int + 10)
    else None
  }

  function Escape(b: Byte): string {
    ['%', HexDigit(b / 16), HexDigit(b % 16)]
  }

  /** UTF-8 of a code unit that is no surrogate. */
  function Utf8(u: Unit): seq<Byte> {
    if u < 0x80 then [u]
    else if u < 0x800 then [0xC0 + u / 64, 0x80 + u % 64]
    else [0xE0 + u / 4096, 0x80 + u / 64 % 64, 0x80 + u % 64]
  }

  function EscapeAll(bytes: seq<Byte>): string {
    if bytes == [] then "" else Escape(bytes[0]) + EscapeAll(bytes[1..])
  }

  /** One code unit; a surrogate cannot be encoded, even as half of a pair. */
  function EncodeUnit(u: Unit): Option<string> {
    if Surrogate(u) then None
    else if u < 0x80 && Kept(u as char) then Some([u as char])
    else Some(EscapeAll(Utf8(u)))
  }

  function EncodeSegment(s: seq<Unit>): Option<string> {
    if s == [] then Some("")
    else
      var first, rest := EncodeUnit(s[0]), EncodeSegment(s[1..]);
      if first.None? || rest.None? then None else Some(first.value + rest.value)
  }

  // ---------------------------------------------------------------- decoding

  /** The byte of an escape at the start of the text. */
  function EscapedByte(t: string): (b: Option<int>)
    ensures b.Some? ==> |t| >= 3 && 0 <= b.value < 256
  {
    if |t| < 3 || t[0] != '%' || HexValue(t[1]).None? || HexValue(t[2]).None? then None
    else Some(16 * HexValue(t[1]).value + HexValue(t[2]).value)
  }

  predicate Continues(t: string) {
    EscapedByte(t).Some? && 0x80 <= EscapedByte(t).value < 0xC0
  }

  function Continuation(t: string): (n: int)
    requires Continues(t)
    ensures 0 <= n < 64
  {
    EscapedByte(t).value - 0x80
  }

  /** Code units of a character beyond the basic plane, or of a plain one. */
  function Units(v: int): seq<Unit>
    requires 0 <= v < 0x11_0000
  {
    if v < 0x1_0000 then [v] else [0xD800 + (v - 0x1_0000) / 1024, 0xDC00 + (v - 0x1_0000) % 1024]
  }

  /** The character escaped at the start of the text and the length of its escapes; overlong forms and surrogates are invalid. */
  function EscapedChar(t: string): (r: Option<(int, nat)>)
    ensures r.Some? ==> 3 <= r.value.1 <= |t| && 0 <= r.value.0 < 0x11_0000
  {
    if EscapedByte(t).None? then None
    else
      var b := EscapedByte(t).value;
      if b < 0x80 then Some((b, 3))
      else if 0xC0 <= b < 0xE0 then
        if !Continues(t[3..]) then None
        else
          var v := 64 * (b - 0xC0) + Continuation(t[3..]);
          if v < 0x80 then None else Some((v, 6))
      else if 0xE0 <= b < 0xF0 then
        if !Continues(t[3..]) || !Continues(t[6..]) then None
        else
          var v := 4096 * (b - 0xE0) + 64 * Continuation(t[3..]) + Continuation(t[6..]);
          if v < 0x800 || 0xD800 <= v < 0xE000 then None else Some((v, 9))
      else if 0xF0 <= b < 0xF8 then
        if !Continues(t[3..]) || !Continues(t[6..]) || !Continues(t[9..]) then None
        else
          var v := 262144 * (b - 0xF0) + 4096 * Continuation(t[3..]) + 64 * Continuation(t[6..]) + Continuation(t[9..]);
          if v < 0x1_0000 || v >= 0x11_0000 then None else Some((v, 12))
      else None
  }

  function Prepend(units: seq<Unit>, rest: Option<seq<Unit>>): Option<seq<Unit>> {
    if rest.None? then None else Some(units + rest.value)
  }

  /** `decodeURIComponent`. */
  function Decode(t: string): Option<seq<Unit>>
    decreases |t|
  {
    if t == "" then Some([])
    else if t[0] != '%' then Prepend(Units(t[0] as int), Decode(t[1..]))
    else
      var c := EscapedChar(t);
      if c.None? then None else Prepend(Units(c.value.0), Decode(t[c.value.1..]))
  }

  // ---------------------------------------------------------------- round trip

  lemma HexRoundTrip(n: int)
    requires 0 <= n < 16
    ensures HexValue(HexDigit(n)) == Some(n)
  {
  }

  lemma EscapeRoundTrip(b: Byte, rest: string)
    ensures EscapedByte(Escape(b) + rest) == Some(b) && (Escape(b) + rest)[3..] == rest
  {
    HexRoundTrip(b / 16);
    HexRoundTrip(b % 16);
    var t := Escape(b) + rest;
    assert t[0] == '%' && t[1] == HexDigit(b / 16) && t[2] == HexDigit(b % 16);
  }

  lemma OneByte(u: Unit, rest: string)
    requires u < 0x80
    ensures EscapedChar(EscapeAll(Utf8(u)) + rest) == Some((u, 3)) && (EscapeAll(Utf8(u)) + rest)[3..] == rest
  {
    EscapeRoundTrip(u, rest);
    assert EscapeAll([u]) == Escape(u) + "" == Escape(u);
  }

  lemma TwoBytes(u: Unit, rest: string)
    requires 0x80 <= u < 0x800
    ensures EscapedChar(EscapeAll(Utf8(u)) + rest) == Some((u, 6)) && (EscapeAll(Utf8(u)) + rest)[6..] == rest
  {
    var a, b := 0xC0 + u / 64, 0x80 + u % 64;
    var t := EscapeAll(Utf8(u)) + rest;
    EscapeTwo(a, b);
    assert t == Escape(a) + (Escape(b) + rest);
    EscapeRoundTrip(a, Escape(b) + rest);
    EscapeRoundTrip(b, rest);
    assert t[6..] == t[3..][3..];
  }

  lemma EscapeTwo(a: Byte, b: Byte)
    ensures EscapeAll([a, b]) == Escape(a) + Escape(b)
  {
    assert [a, b][1..] == [b];
    assert EscapeAll([b]) == Escape(b) + "";
  }

  lemma CharOfThree(t: string, a: int, b: int, c: int)
    requires |t| >= 9 && EscapedByte(t) == Some(0xE0 + a) && EscapedByte(t[3..]) == Some(0x80 + b) && EscapedByte(t[6..]) == Some(0x80 + c)
    requires 0 <= a < 16 && 0 <= b < 64 && 0 <= c < 64
    requires 0x800 <= 4096 * a + 64 * b + c && !(0xD800 <= 4096 * a + 64 * b + c < 0xE000)
    ensures EscapedChar(t) == Some((4096 * a + 64 * b + c, 9))
  {
    hide EscapedByte;
  }

  lemma EscapeThree(a: Byte, b: Byte, c: Byte)
    ensures EscapeAll([a, b, c]) == Escape(a) + (Escape(b) + Escape(c))
  {
    EscapeTwo(b, c);
    assert [a, b, c][1..] == [b, c];
    hide Escape;
  }

  lemma BytesOfThree(a: Byte, b: Byte, c: Byte, rest: string, t: string)
    requires t == Escape(a) + (Escape(b) + Escape(c)) + rest
    ensures EscapedByte(t) == Some(a) && EscapedByte(t[3..]) == Some(b) && EscapedByte(t[6..]) == Some(c) && t[9..] == rest && |t| >= 9
  {
    EscapeRoundTrip(a, Escape(b) + (Escape(c) + rest));
    EscapeRoundTrip(b, Escape(c) + rest);
    EscapeRoundTrip(c, rest);
    hide EscapedByte;
    assert t == Escape(a) + (Escape(b) + (Escape(c) + rest));
    assert t[3..] == Escape(b) + (Escape(c) + rest);
    assert t[6..] == t[3..][3..] && t[9..] == t[6..][3..];
  }

  lemma UnitSplits(u: Unit)
    ensures u == 4096 * (u / 4096) + 64 * (u / 64 % 64) + u % 64 && u / 4096 < 16
  {
  }

  lemma ThreeBytes(u: Unit, rest: string)
    requires 0x800 <= u && !Surrogate(u)
    ensures EscapedChar(EscapeAll(Utf8(u)) + rest) == Some((u, 9)) && (EscapeAll(Utf8(u)) + rest)[9..] == rest
  {
    var a, b, c := u / 4096, u / 64 % 64, u % 64;
    UnitSplits(u);
    EscapeThree(0xE0 + a, 0x80 + b, 0x80 + c);
    hide Escape, EscapeAll, EscapedByte, EscapedChar;
    BytesOfThree(0xE0 + a, 0x80 + b, 0x80 + c, rest, EscapeAll(Utf8(u)) + rest);
    CharOfThree(EscapeAll(Utf8(u)) + rest, a, b, c);
  }

  lemma UnitRoundTrip(u: Unit, rest: string)
    requires EncodeUnit(u).Some?
    ensures Decode(EncodeUnit(u).value + rest) == Prepend([u], Decode(rest))
  {
    var t := EncodeUnit(u).value + rest;
    if u < 0x80 && Kept(u as char) {
      assert t[0] == u as char && t[1..] == rest;
    } else {
      if u < 0x80 { OneByte(u, rest); } else if u < 0x800 { TwoBytes(u, rest); } else { ThreeBytes(u, rest); }
      assert t[0] == '%';
    }
  }

  /** Whatever can be encoded is decoded back, unit for unit. */
  lemma {:induction false} SegmentRoundTrip(s: seq<Unit>)
    requires EncodeSegment(s).Some?
    ensures Decode(EncodeSegment(s).value) == Some(s)
  {
    if s != [] {
      SegmentRoundTrip(s[1..]);
      UnitRoundTrip(s[0], EncodeSegment(s[1..]).value);
      assert [s[0]] + s[1..] == s;
    }
  }

  predicate NoSurrogate(s: seq<Unit>) {
    forall i :: 0 <= i < |s| ==> !Surrogate(s[i])
  }

  lemma NoSurrogateStep(s: seq<Unit>)
    requires s != []
    ensures NoSurrogate(s) <==> !Surrogate(s[0]) && NoSurrogate(s[1..])
  {
    assert s == [s[0]] + s[1..];
    if NoSurrogate(s[1..]) && !Surrogate(s[0]) {
      forall i | 0 <= i < |s| ensures !Surrogate(s[i]) {
        if i > 0 { assert s[i] == s[1..][i - 1]; }
      }
    }
  }

  /** A segment can be encoded exactly when it has no surrogate. */
  lemma {:induction false} EncodableExactly(s: seq<Unit>)
    ensures EncodeSegment(s).Some? <==> NoSurrogate(s)
  {
    if s != [] {
      EncodableExactly(s[1..]);
      NoSurrogateStep(s);
    }
  }

  predicate SegmentChar(c: char) {
    Kept(c) || c == '%'
  }

  predicate SegmentText(t: string) {
    forall i :: 0 <= i < |t| ==> SegmentChar(t[i])
  }

  lemma {:induction false} EscapesAreSegments(bytes: seq<Byte>)
    ensures SegmentText(EscapeAll(bytes))
  {
    if bytes != [] {
      EscapesAreSegments(bytes[1..]);
    }
  }

  /** An encoded segment has no separator: neither ':' nor '#', and nothing outside ASCII. */
  lemma {:induction false} EncodedIsSegment(s: seq<Unit>)
    requires EncodeSegment(s).Some?
    ensures SegmentText(EncodeSegment(s).value)
  {
    if s != [] {
      EncodedIsSegment(s[1..]);
      EscapesAreSegments(Utf8(s[0]));
    }
  }

  predicate DocumentedText(t: string) {
    forall i :: 0 <= i < |t| ==> Documented(t[i]) || t[i] == '%'
  }

  predicate NoMark(s: seq<Unit>) {
    forall i :: 0 <= i < |s| ==> !(s[i] < 0x80 && Mark(s[i] as char))
  }

  lemma {:induction false} EscapesAreDocumented(bytes: seq<Byte>)
    ensures DocumentedText(EscapeAll(bytes))
  {
    if bytes != [] {
      EscapesAreDocumented(bytes[1..]);
    }
  }

  lemma UnitDocumented(u: Unit)
    requires EncodeUnit(u).Some?
    ensures DocumentedText(EncodeUnit(u).value) <==> !(u < 0x80 && Mark(u as char))
  {
    EscapesAreDocumented(Utf8(u));
    if u < 0x80 && Kept(u as char) {
      assert EncodeUnit(u).value[0] == u as char;
    }
  }

  lemma DocumentedJoined(a: string, b: string)
    ensures DocumentedText(a + b) <==> DocumentedText(a) && DocumentedText(b)
  {
    if DocumentedText(a + b) {
      forall i | 0 <= i < |a|
        ensures Documented(a[i]) || a[i] == '%'
      {
        assert (a + b)[i] == a[i];
      }
      forall i | 0 <= i < |b|
        ensures Documented(b[i]) || b[i] == '%'
      {
        assert (a + b)[|a| + i] == b[i];
      }
    }
  }

  lemma NoMarkStep(s: seq<Unit>)
    requires s != []
    ensures NoMark(s) <==> !(s[0] < 0x80 && Mark(s[0] as char)) && NoMark(s[1..])
  {
    hide Mark;
    assert forall i :: 0 < i < |s| ==> s[i] == s[1..][i - 1];
    assert forall i :: 0 <= i < |s| - 1 ==> s[1..][i] == s[i + 1];
  }

  /** An encoded segment stays within the documented characters exactly when the text has none of the six marks. */
  lemma {:induction false} DocumentedExactly(s: seq<Unit>)
    requires EncodeSegment(s).Some?
    ensures DocumentedText(EncodeSegment(s).value) <==> NoMark(s)
  {
    if s != [] {
      DocumentedExactly(s[1..]);
      UnitDocumented(s[0]);
      DocumentedJoined(EncodeUnit(s[0]).value, EncodeSegment(s[1..]).value);
      NoMarkStep(s);
      hide EncodeUnit, DocumentedText, NoMark;
    }
  }

  /** "O'Neil" is written as it is. */
  lemma ApostropheStays()
    ensures var text: seq<Unit> := ['O' as int, '\'' as int, 'N' as int, 'e' as int, 'i' as int, 'l' as int];
            EncodeSegment(text) == Some("O'Neil") && !DocumentedText("O'Neil")
  {
    var text: seq<Unit> := ['O' as int, '\'' as int, 'N' as int, 'e' as int, 'i' as int, 'l' as int];
    assert text[6..] == [] && "l"[1..] == "";
    KeptStep(text[5..], "l");
    assert text[4..][1..] == text[5..] && "il"[1..] == "l";
    KeptStep(text[4..], "il");
    assert text[3..][1..] == text[4..] && "eil"[1..] == "il";
    KeptStep(text[3..], "eil");
    assert text[2..][1..] == text[3..] && "Neil"[1..] == "eil";
    KeptStep(text[2..], "Neil");
    assert text[1..][1..] == text[2..] && "'Neil"[1..] == "Neil";
    KeptStep(text[1..], "'Neil");
    assert "O'Neil"[1..] == "'Neil";
    KeptStep(text, "O'Neil");
    assert "O'Neil"[1] == '\'';
  }

  lemma KeptStep(s: seq<Unit>, t: string)
    requires s != [] && t != "" && s[0] < 0x80 && s[0] as char == t[0] && Kept(t[0]) && EncodeSegment(s[1..]) == Some(t[1..])
    ensures EncodeSegment(s) == Some(t)
  {
    assert [t[0]] + t[1..] == t;
  }

  /** How long a unit's text is. */
  function UnitLength(u: Unit): nat {
    if u < 0x80 && Kept(u as char) then 1 else if u < 0x80 then 3 else if u < 0x800 then 6 else 9
  }

  function EncodedLength(s: seq<Unit>): nat {
    if s == [] then 0 else UnitLength(s[0]) + EncodedLength(s[1..])
  }

  lemma {:induction false} EncodedLengthExactly(s: seq<Unit>)
    requires EncodeSegment(s).Some?
    ensures |EncodeSegment(s).value| == EncodedLength(s)
  {
    if s != [] {
      EncodedLengthExactly(s[1..]);
      EscapeLength(Utf8(s[0]));
    }
  }

  lemma {:induction false} EscapeLength(bytes: seq<Byte>)
    ensures |EscapeAll(bytes)| == 3 * |bytes|
  {
    if bytes != [] {
      EscapeLength(bytes[1..]);
    }
  }

  lemma EncodeInjective(s: seq<Unit>, t: seq<Unit>)
    requires EncodeSegment(s).Some? && EncodeSegment(s) == EncodeSegment(t)
    ensures s == t
  {
    SegmentRoundTrip(s);
    SegmentRoundTrip(t);
  }
}
