/** How account, transaction and synthetic payment ids are put together, and what can be read back from them. */
module TransactionIds {
  import opened Common
  import opened Digits
  import opened PercentSegments

  const MAX_ID_LENGTH := 255

  predicate PlainName(s: string) {
    s != "" && forall i :: 0 <= i < |s| ==> Alphanumeric(s[i])
  }

  /** One of the configured companies. */
  type Company = s: string | PlainName(s) witness "max"

  predicate HexText(s: string) {
    |s| == 16 && forall i :: 0 <= i < |s| ==> '0' <= s[i] <= '9' || 'a' <= s[i] <= 'f'
  }

  /** The first 16 hexadecimal digits of a hash. */
  type Fingerprint = s: string | HexText(s) witness "0123456789abcdef"

  /** White space that `trim` removes. */
  predicate Space(u: Unit) {
    9 <= u <= 13 || u == 32 || u == 160 || u == 0x1680 || 0x2000 <= u <= 0x200A
    || u == 0x2028 || u == 0x2029 || u == 0x202F || u == 0x205F || u == 0x3000 || u == 0xFEFF
  }

  function TrimStart(s: seq<Unit>): (r: seq<Unit>)
    ensures r != [] ==> !Space(r[0])
    ensures |r| <= |s| && r == s[|s| - |r|..]
  {
    if s != [] && Space(s[0]) then TrimStart(s[1..]) else s
  }

  function TrimEnd(s: seq<Unit>): (r: seq<Unit>)
    ensures r != [] ==> !Space(r[|r| - 1])
    ensures r <= s
  {
    if s != [] && Space(s[|s| - 1]) then TrimEnd(s[..|s| - 1]) else s
  }

  function Trim(s: seq<Unit>): seq<Unit> {
    TrimEnd(TrimStart(s))
  }

  lemma TrimTwice(s: seq<Unit>)
    ensures Trim(Trim(s)) == Trim(s)
  {
    var t := TrimStart(s);
    var r := TrimEnd(t);
    if r != [] {
      assert r[0] == t[0];
      assert TrimStart(r) == r && TrimEnd(r) == r;
    }
  }

  /** Ids are limited in length; that they are printable ASCII follows from their parts. */
  function Checked(id: string): Option<string> {
    if |id| <= MAX_ID_LENGTH then Some(id) else None
  }

  function AccountId(company: Company, accountNumber: seq<Unit>): Option<string> {
    match EncodeSegment(Trim(accountNumber))
    case None => None
    case Some(segment) => Checked(company + ":" + segment)
  }

  function AfterColon(id: string): Option<string> {
    if id == "" then None else if id[0] == ':' then Some(id[1..]) else AfterColon(id[1..])
  }

  /** The account number an account id carries; none when the text cannot be decoded. */
  function AccountNumberFromAccountId(id: string): Option<seq<Unit>> {
    Decode(AfterColon(id).GetOr(id))
  }

  /** A missing identifier is written as a dash. */
  function IdentifierSegment(identifier: Option<seq<Unit>>): Option<string> {
    if identifier.None? then Some("-") else EncodeSegment(identifier.value)
  }

  /** An id without ordinal. */
  function BaseId(company: Company, accountNumber: seq<Unit>, identifier: Option<seq<Unit>>, fingerprint: Fingerprint): Option<string> {
    var account, segment := AccountId(company, accountNumber), IdentifierSegment(identifier);
    if account.None? || segment.None? then None else Checked(account.value + ":" + (segment.value + ":" + fingerprint))
  }

  /** The first row of a base id keeps it; later ones carry their ordinal. */
  function WithOrdinal(base: string, ordinal: nat): Option<string> {
    if ordinal >= 2 then Checked(base + "#" + FromNat(ordinal)) else Some(base)
  }

  /** `date` is `YYYY-MM-DD`. */
  function SyntheticPaymentId(company: Company, accountNumber: seq<Unit>, date: string): Option<string> {
    var account := AccountId(company, accountNumber);
    if account.None? then None else Checked(account.value + ":" + ("payment" + ":" + date))
  }

  // ---------------------------------------------------------------- separators

  predicate Without(s: string, separator: char) {
    forall i :: 0 <= i < |s| ==> s[i] != separator
  }

  /** Texts split at their first separator in one way only. */
  lemma {:induction false} SplitFirst(a: string, b: string, c: string, d: string, separator: char)
    requires Without(a, separator) && Without(c, separator) && a + [separator] + b == c + [separator] + d
    ensures a == c && b == d
  {
    var s := a + [separator] + b;
    var t := c + [separator] + d;
    assert s[|a|] == separator && t[|c|] == separator;
    assert forall i :: 0 <= i < |a| ==> s[i] == a[i];
    assert forall i :: 0 <= i < |c| ==> t[i] == c[i];
    assert a == s[..|a|] && c == t[..|c|];
    assert b == s[|a| + 1..] && d == t[|c| + 1..];
  }

  lemma SegmentsHaveNoSeparator(s: string)
    requires SegmentText(s)
    ensures Without(s, ':') && Without(s, '#')
  {
  }

  lemma {:induction false} AfterFirstColon(name: string, rest: string)
    requires Without(name, ':')
    ensures AfterColon(name + ":" + rest) == Some(rest)
  {
    if name == "" {
      assert (name + ":" + rest)[0] == ':' && (name + ":" + rest)[1..] == rest;
    } else {
      assert (name + ":" + rest)[0] == name[0] && (name + ":" + rest)[1..] == name[1..] + ":" + rest;
      AfterFirstColon(name[1..], rest);
    }
  }

  // ---------------------------------------------------------------- reading back

  /** The account number survives in its id, up to white space around it. */
  lemma AccountRoundTrip(company: Company, accountNumber: seq<Unit>)
    requires AccountId(company, accountNumber).Some?
    ensures AccountNumberFromAccountId(AccountId(company, accountNumber).value) == Some(Trim(accountNumber))
  {
    AfterFirstColon(company, EncodeSegment(Trim(accountNumber)).value);
    SegmentRoundTrip(Trim(accountNumber));
  }

  /** The id rebuilt from the account number an account id carries is the same id. */
  lemma AccountIdRebuilt(company: Company, accountNumber: seq<Unit>)
    requires AccountId(company, accountNumber).Some?
    ensures var id := AccountId(company, accountNumber).value;
            AccountNumberFromAccountId(id).Some? && AccountId(company, AccountNumberFromAccountId(id).value) == Some(id)
  {
    AccountRoundTrip(company, accountNumber);
    TrimTwice(accountNumber);
  }

  /** Only a dash is written like a missing identifier. */
  function Named(identifier: Option<seq<Unit>>): Option<seq<Unit>> {
    if identifier == Some(['-' as int]) then None else identifier
  }

  lemma DashEncodes()
    ensures EncodeSegment(['-' as int]) == Some("-")
  {
    var dash: Unit := '-' as int;
    assert EncodeUnit(dash) == Some("-");
    assert [dash][1..] == [];
    assert EncodeSegment([dash]) == Some("-" + "");
    assert "-" + "" == "-";
  }

  lemma IdentifierInjective(a: Option<seq<Unit>>, b: Option<seq<Unit>>)
    requires IdentifierSegment(a).Some?
    ensures IdentifierSegment(a) == IdentifierSegment(b) <==> Named(a) == Named(b)
  {
    DashEncodes();
    var dash: seq<Unit> := ['-' as int];
    if IdentifierSegment(a) == IdentifierSegment(b) {
      if a.Some? && b.Some? {
        EncodeInjective(a.value, b.value);
      } else if a.Some? {
        EncodeInjective(a.value, dash);
      } else if b.Some? {
        EncodeInjective(b.value, dash);
      }
    }
  }

  lemma IdentifierIsSegment(identifier: Option<seq<Unit>>)
    requires IdentifierSegment(identifier).Some?
    ensures SegmentText(IdentifierSegment(identifier).value)
  {
    if identifier.Some? {
      EncodedIsSegment(identifier.value);
    }
  }

  /** The length of an identifier in an id; a missing one is a dash. */
  function IdentifierLength(identifier: Option<seq<Unit>>): nat {
    if identifier.None? then 1 else EncodedLength(identifier.value)
  }

  /**
   * A row has an id exactly when neither its trimmed account number nor its identifier holds a surrogate and the
   * lengths, counted in encoded characters, fit.
   */
  lemma BaseIdExactly(company: Company, accountNumber: seq<Unit>, identifier: Option<seq<Unit>>, fingerprint: Fingerprint)
    ensures BaseId(company, accountNumber, identifier, fingerprint).Some? <==>
              && NoSurrogate(Trim(accountNumber)) && (identifier.Some? ==> NoSurrogate(identifier.value))
              && |company| + EncodedLength(Trim(accountNumber)) + IdentifierLength(identifier) + 19 <= MAX_ID_LENGTH
  {
    EncodableExactly(Trim(accountNumber));
    if EncodeSegment(Trim(accountNumber)).Some? {
      EncodedLengthExactly(Trim(accountNumber));
    }
    if identifier.Some? {
      EncodableExactly(identifier.value);
      if EncodeSegment(identifier.value).Some? {
        EncodedLengthExactly(identifier.value);
      }
    }
    hide Trim, EncodeSegment, EncodedLength, NoSurrogate;
  }

  lemma AccountText(company: Company, accountNumber: seq<Unit>)
    requires AccountId(company, accountNumber).Some?
    ensures EncodeSegment(Trim(accountNumber)).Some? && SegmentText(EncodeSegment(Trim(accountNumber)).value)
    ensures AccountId(company, accountNumber).value == company + ":" + EncodeSegment(Trim(accountNumber)).value
    ensures Without(company, ':') && Without(company, '#')
  {
    EncodedIsSegment(Trim(accountNumber));
  }

  lemma Regroup(company: string, segment: string, rest: string)
    ensures company + ":" + segment + ":" + rest == company + ":" + (segment + ":" + rest)
  {
  }

  /** Ids that start with an account id: the account and what follows can be told apart. */
  lemma AccountSplits(c1: Company, a1: seq<Unit>, rest1: string, c2: Company, a2: seq<Unit>, rest2: string)
    requires AccountId(c1, a1).Some? && AccountId(c2, a2).Some?
    requires AccountId(c1, a1).value + ":" + rest1 == AccountId(c2, a2).value + ":" + rest2
    ensures c1 == c2 && Trim(a1) == Trim(a2) && rest1 == rest2
  {
    AccountText(c1, a1);
    AccountText(c2, a2);
    var s1, s2 := EncodeSegment(Trim(a1)).value, EncodeSegment(Trim(a2)).value;
    Regroup(c1, s1, rest1);
    Regroup(c2, s2, rest2);
    SplitFirst(c1, s1 + ":" + rest1, c2, s2 + ":" + rest2, ':');
    SegmentsHaveNoSeparator(s1);
    SegmentsHaveNoSeparator(s2);
    SplitFirst(s1, rest1, s2, rest2, ':');
    EncodeInjective(Trim(a1), Trim(a2));
  }

  /** Two base ids are the same exactly when company, trimmed account number, identifier (a dash counting as none) and
      fingerprint are. */
  lemma BaseIdInjective(c1: Company, a1: seq<Unit>, i1: Option<seq<Unit>>, f1: Fingerprint,
                        c2: Company, a2: seq<Unit>, i2: Option<seq<Unit>>, f2: Fingerprint)
    requires BaseId(c1, a1, i1, f1).Some? && BaseId(c2, a2, i2, f2).Some?
    ensures BaseId(c1, a1, i1, f1) == BaseId(c2, a2, i2, f2) <==> c1 == c2 && Trim(a1) == Trim(a2) && Named(i1) == Named(i2) && f1 == f2
  {
    var s1, s2 := IdentifierSegment(i1).value, IdentifierSegment(i2).value;
    IdentifierInjective(i1, i2);
    if BaseId(c1, a1, i1, f1) == BaseId(c2, a2, i2, f2) {
      AccountSplits(c1, a1, s1 + ":" + f1, c2, a2, s2 + ":" + f2);
      IdentifierIsSegment(i1);
      IdentifierIsSegment(i2);
      SegmentsHaveNoSeparator(s1);
      SegmentsHaveNoSeparator(s2);
      SplitFirst(s1, f1, s2, f2, ':');
    }
  }

  lemma WithoutJoined(a: string, b: string, separator: char)
    requires Without(a, separator) && Without(b, separator)
    ensures Without(a + b, separator)
  {
  }

  lemma BaseHasNoHash(company: Company, accountNumber: seq<Unit>, identifier: Option<seq<Unit>>, fingerprint: Fingerprint)
    requires BaseId(company, accountNumber, identifier, fingerprint).Some?
    ensures Without(BaseId(company, accountNumber, identifier, fingerprint).value, '#')
  {
    AccountText(company, accountNumber);
    IdentifierIsSegment(identifier);
    var account, segment := EncodeSegment(Trim(accountNumber)).value, IdentifierSegment(identifier).value;
    SegmentsHaveNoSeparator(account);
    SegmentsHaveNoSeparator(segment);
    assert Without(":", '#') && Without(fingerprint, '#');
    hide Without;
    WithoutJoined(company, ":", '#');
    WithoutJoined(company + ":", account, '#');
    WithoutJoined(company + ":" + account, ":", '#');
    WithoutJoined(segment, ":", '#');
    WithoutJoined(segment + ":", fingerprint, '#');
    WithoutJoined(company + ":" + account + ":", segment + ":" + fingerprint, '#');
  }

  lemma OrdinalHash(base: string, ordinal: nat)
    requires Without(base, '#') && WithOrdinal(base, ordinal).Some?
    ensures Without(WithOrdinal(base, ordinal).value, '#') <==> ordinal < 2
  {
    if ordinal >= 2 {
      assert WithOrdinal(base, ordinal).value[|base|] == '#';
    }
  }

  /** Base ids and ordinals can be read back from an id. */
  lemma OrdinalInjective(b1: string, n1: nat, b2: string, n2: nat)
    requires Without(b1, '#') && Without(b2, '#') && n1 >= 1 && n2 >= 1
    requires WithOrdinal(b1, n1).Some? && WithOrdinal(b1, n1) == WithOrdinal(b2, n2)
    ensures b1 == b2 && n1 == n2
  {
    OrdinalHash(b1, n1);
    OrdinalHash(b2, n2);
    if n1 >= 2 {
      SplitFirst(b1, FromNat(n1), b2, FromNat(n2), '#');
      ToNatFromNat(n1);
      ToNatFromNat(n2);
    }
  }

  /** A date is shorter than a fingerprint, so no synthetic payment id is ever a scraped row's id. */
  lemma SyntheticNeverScraped(c1: Company, a1: seq<Unit>, date: string, c2: Company, a2: seq<Unit>, identifier: Option<seq<Unit>>,
                              fingerprint: Fingerprint, ordinal: nat)
    requires |date| == 10 && SyntheticPaymentId(c1, a1, date).Some?
    requires BaseId(c2, a2, identifier, fingerprint).Some?
    ensures WithOrdinal(BaseId(c2, a2, identifier, fingerprint).value, ordinal) != SyntheticPaymentId(c1, a1, date)
  {
    if WithOrdinal(BaseId(c2, a2, identifier, fingerprint).value, ordinal) == SyntheticPaymentId(c1, a1, date) {
      var suffix := Suffix(ordinal);
      var segment := IdentifierSegment(identifier).value;
      OrdinalText(c2, a2, identifier, fingerprint, ordinal);
      IdentifierIsSegment(identifier);
      SegmentsHaveNoSeparator(segment);
      DateIsTooShort(date, segment, fingerprint, suffix);
      hide AccountId, WithOrdinal, BaseId, IdentifierSegment, Suffix, Without, SegmentText, Trim;
      AccountSplits(c1, a1, "payment" + ":" + date, c2, a2, segment + ":" + (fingerprint + suffix));
    }
  }

  lemma DateIsTooShort(date: string, segment: string, fingerprint: Fingerprint, suffix: string)
    requires |date| == 10 && Without(segment, ':')
    ensures "payment" + ":" + date != segment + ":" + (fingerprint + suffix)
  {
    if "payment" + ":" + date == segment + ":" + (fingerprint + suffix) {
      SplitFirst("payment", date, segment, fingerprint + suffix, ':');
    }
  }

  lemma OrdinalText(company: Company, accountNumber: seq<Unit>, identifier: Option<seq<Unit>>, fingerprint: Fingerprint, ordinal: nat)
    requires BaseId(company, accountNumber, identifier, fingerprint).Some?
    requires WithOrdinal(BaseId(company, accountNumber, identifier, fingerprint).value, ordinal).Some?
    ensures AccountId(company, accountNumber).Some? && IdentifierSegment(identifier).Some?
    ensures WithOrdinal(BaseId(company, accountNumber, identifier, fingerprint).value, ordinal).value
         == AccountId(company, accountNumber).value + ":" + (IdentifierSegment(identifier).value + ":" + (fingerprint + Suffix(ordinal)))
  {
    WithOrdinalIs(BaseId(company, accountNumber, identifier, fingerprint).value, ordinal);
    hide WithOrdinal, AccountId, IdentifierSegment;
    SuffixMoves(AccountId(company, accountNumber).value, IdentifierSegment(identifier).value, fingerprint, Suffix(ordinal));
  }

  function Suffix(ordinal: nat): string {
    if ordinal >= 2 then "#" + FromNat(ordinal) else ""
  }

  lemma WithOrdinalIs(base: string, ordinal: nat)
    requires WithOrdinal(base, ordinal).Some?
    ensures WithOrdinal(base, ordinal).value == base + Suffix(ordinal)
  {
    if ordinal >= 2 {
      assert base + "#" + FromNat(ordinal) == base + ("#" + FromNat(ordinal));
    } else {
      assert base + "" == base;
    }
  }

  lemma SuffixMoves(account: string, segment: string, fingerprint: string, suffix: string)
    ensures account + ":" + (segment + ":" + fingerprint) + suffix == account + ":" + (segment + ":" + (fingerprint + suffix))
  {
  }
}
