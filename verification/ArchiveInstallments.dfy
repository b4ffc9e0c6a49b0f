/** Which archived installment, if any, a portal row stands for. */
module ArchiveInstallments {
  import opened Common
  import opened LedgerRows

  const MAX_SAFE := 9_007_199_254_740_991

  function ArchiveOf(raw: Raw): Archive {
    if raw.Object? then raw.archive else NoArchive
  }

  function PortalOf(raw: Raw): Portal {
    if raw.Object? then raw.portal else EMPTY_PORTAL
  }

  predicate Recognised(archive: Archive) {
    archive.OriginOnly? || archive.Evidence?
  }

  /** Archive evidence outlives every refresh. */
  function PreserveArchiveRaw(existing: Row, incoming: Row): Raw {
    if Recognised(ArchiveOf(existing.raw)) then Object(PortalOf(incoming.raw), ArchiveOf(existing.raw)) else incoming.raw
  }

  function Lower(s: string): string {
    seq(|s|, i requires 0 <= i < |s| => if 'A' <= s[i] <= 'Z' then s[i] - 'A' + 'a' else s[i])
  }

  predicate SafeInteger(n: Option<int>) {
    n.Some? && -MAX_SAFE <= n.value <= MAX_SAFE
  }

  predicate IsoPrefix(text: string) {
    && |text| <= 40 && |text| >= 10 && text[4] == '-' && text[7] == '-'
    && (forall i :: 0 <= i < 10 && i != 4 && i != 7 ==> '0' <= text[i] <= '9')
    && (|text| == 10 || text[10] == 'T')
  }

  function OccurrenceDate(setting: Setting, value: Option<string>): Option<string> {
    if value.Some? && IsoPrefix(value.value) then setting.calendarDate(value.value) else None
  }

  /** The rows describe one and the same installment of one purchase. */
  predicate SameInstallment(archive: Row, incoming: Row) {
    && archive.company == "visaCal" && incoming.company == "visaCal"
    && !archive.synthetic && !incoming.synthetic && archive.status.Posted? && incoming.status.Posted?
    && archive.identifier.Some? && archive.identifier.value != "" && archive.identifier == incoming.identifier
    && archive.accountId == incoming.accountId
    && archive.amount == incoming.amount && archive.currency == incoming.currency && archive.description == incoming.description
    && SafeInteger(archive.installmentNumber) && SafeInteger(archive.installmentTotal)
    && archive.installmentNumber.value >= 1 && archive.installmentTotal.value >= 2
    && archive.installmentNumber.value <= archive.installmentTotal.value
    && archive.installmentNumber == incoming.installmentNumber && archive.installmentTotal == incoming.installmentTotal
  }

  predicate EvidenceAgrees(setting: Setting, archive: Row, incoming: Row) {
    var evidence, portal := ArchiveOf(archive.raw), PortalOf(incoming.raw);
    && evidence.Evidence?
    && Lower(evidence.originRowId) == Lower(evidence.record.originRowId)
    && Some(evidence.sourceIdentifier) == archive.identifier
    && evidence.record.accountId == archive.accountId && evidence.record.amount == archive.amount
    && evidence.record.currency == archive.currency && evidence.record.description == archive.description
    && evidence.purchaseOrEventDate == evidence.record.purchaseDate
    && Some(evidence.purchaseOrEventDate) == OccurrenceDate(setting, portal.date)
    && portal.installmentNumber == incoming.installmentNumber && portal.installmentTotal == incoming.installmentTotal
    && portal.identifier.Some? && portal.identifier == incoming.identifier
    && portal.description == Some(incoming.description)
    && portal.chargedAmount == Some(incoming.amount)
    && incoming.chargeDate.Some? && incoming.chargeDate == OccurrenceDate(setting, portal.processedDate)
    && (archive.originalAmount.None? || incoming.originalAmount.None? || archive.originalAmount == incoming.originalAmount)
    && (archive.originalCurrency.None? || incoming.originalCurrency.None? || archive.originalCurrency == incoming.originalCurrency)
  }

  predicate Matches(setting: Setting, archive: Row, incoming: Row) {
    SameInstallment(archive, incoming) && EvidenceAgrees(setting, archive, incoming)
  }

  /** The stored rows, other than the row itself, that a portal row matches. */
  function MatchIds(setting: Setting, rows: map<string, Row>, incoming: Row): set<string> {
    set id | id in rows && rows[id].id != incoming.id && Matches(setting, rows[id], incoming)
  }

  ghost function Find(setting: Setting, rows: map<string, Row>, incoming: Row): Result<Option<Row>, LedgerError> {
    var ids := MatchIds(setting, rows, incoming);
    if |ids| > 1 then Err(AmbiguousArchive)
    else if ids == {} then Ok(None)
    else var id :| id in ids; Ok(Some(rows[id]))
  }

  /** The stored row an incoming row will write: its own by id, else its unique archived installment. */
  ghost function Canonical(setting: Setting, rows: map<string, Row>, incoming: Row): Result<Option<Row>, LedgerError> {
    if incoming.id in rows then Ok(Some(rows[incoming.id])) else Find(setting, rows, incoming)
  }

  ghost function ResolveFrom(setting: Setting, rows: map<string, Row>, batch: seq<Row>,
                             resolved: map<string, Row>, claimed: map<string, string>): Result<map<string, Row>, LedgerError>
    decreases |batch|
  {
    if batch == [] then Ok(resolved)
    else match Canonical(setting, rows, batch[0])
      case Err(e) => Err(e)
      case Ok(None) => ResolveFrom(setting, rows, batch[1..], resolved, claimed)
      case Ok(Some(canonical)) =>
        if canonical.id in claimed && claimed[canonical.id] != batch[0].id then Err(DoublyClaimed)
        else ResolveFrom(setting, rows, batch[1..], resolved[batch[0].id := canonical], claimed[canonical.id := batch[0].id])
  }

  ghost function Resolve(setting: Setting, rows: map<string, Row>, batch: seq<Row>): Result<map<string, Row>, LedgerError> {
    ResolveFrom(setting, rows, batch, map[], map[])
  }

  // ---------------------------------------------------------------- the procedures

  /** The candidates that match, in list order. */
  function Matching(setting: Setting, candidates: seq<Row>, incoming: Row): seq<Row> {
    if candidates == [] then []
    else
      var front, last := Matching(setting, candidates[..|candidates| - 1], incoming), candidates[|candidates| - 1];
      if last.id != incoming.id && Matches(setting, last, incoming) then front + [last] else front
  }

  lemma {:induction false} MatchingMembers(setting: Setting, candidates: seq<Row>, incoming: Row)
    requires DistinctIds(candidates)
    ensures DistinctIds(Matching(setting, candidates, incoming))
    ensures forall row :: row in Matching(setting, candidates, incoming)
              <==> row in candidates && row.id != incoming.id && Matches(setting, row, incoming)
  {
    hide Matches;
    if candidates != [] {
      var front, last := candidates[..|candidates| - 1], candidates[|candidates| - 1];
      assert candidates == front + [last];
      MatchingMembers(setting, front, incoming);
      assert forall row :: row in front ==> row.id != last.id;
    }
  }

  lemma FindSingle(setting: Setting, rows: map<string, Row>, incoming: Row, id: string)
    requires id in rows && MatchIds(setting, rows, incoming) == {id}
    ensures Find(setting, rows, incoming) == Ok(Some(rows[id]))
  {
    hide MatchIds;
  }

  /** Matching rows of a list and matching ids of its map are the same rows. */
  lemma MatchingAreIds(setting: Setting, candidates: seq<Row>, incoming: Row)
    requires DistinctIds(candidates)
    ensures var found := Matching(setting, candidates, incoming);
            && DistinctIds(found)
            && (forall i :: 0 <= i < |found| ==> found[i].id in ById(candidates) && ById(candidates)[found[i].id] == found[i])
            && MatchIds(setting, ById(candidates), incoming) == set i | 0 <= i < |found| :: found[i].id
  {
    var found, rows := Matching(setting, candidates, incoming), ById(candidates);
    ByIdMembers(candidates);
    MatchingMembers(setting, candidates, incoming);
    hide Matches, Matching, ById;
    forall i | 0 <= i < |found|
      ensures found[i].id in rows && rows[found[i].id] == found[i]
    {
      assert found[i] in found;
    }
    forall id | id in MatchIds(setting, rows, incoming)
      ensures exists i :: 0 <= i < |found| && found[i].id == id
    {
      assert rows[id] in found;
    }
  }

  /** Counting list matches is counting matching ids. */
  lemma MatchingIsFind(setting: Setting, candidates: seq<Row>, incoming: Row)
    requires DistinctIds(candidates)
    ensures var found := Matching(setting, candidates, incoming);
            Find(setting, ById(candidates), incoming) ==
            if |found| > 1 then Err(AmbiguousArchive) else if |found| == 0 then Ok(None) else Ok(Some(found[0]))
  {
    MatchingAreIds(setting, candidates, incoming);
    hide Matching, ById, MatchIds;
    var found, ids := Matching(setting, candidates, incoming), MatchIds(setting, ById(candidates), incoming);
    if |found| > 1 {
      TwoMembers(ids, found[0].id, found[1].id);
    } else if |found| == 1 {
      assert ids == {found[0].id};
      FindSingle(setting, ById(candidates), incoming, found[0].id);
    }
  }

  /** Filter a list of candidates; refuse when more than one matches. */
  method FindArchiveInstallment(setting: Setting, candidates: seq<Row>, incoming: Row) returns (r: Result<Option<Row>, LedgerError>)
    requires DistinctIds(candidates)
    ensures r == Find(setting, ById(candidates), incoming)
  {
    var matches: seq<Row> := [];
    for i := 0 to |candidates|
      invariant matches == Matching(setting, candidates[..i], incoming)
    {
      assert candidates[..i + 1][..i] == candidates[..i];
      if candidates[i].id != incoming.id && Matches(setting, candidates[i], incoming) {
        matches := matches + [candidates[i]];
      }
    }
    assert candidates[..|candidates|] == candidates;
    MatchingIsFind(setting, candidates, incoming);
    if |matches| > 1 {
      return Err(AmbiguousArchive);
    }
    r := Ok(if |matches| == 0 then None else Some(matches[0]));
  }

  lemma TwoMembers<T>(s: set<T>, a: T, b: T)
    requires a in s && b in s && a != b
    ensures |s| > 1
  {
    assert {a, b} <= s;
    assert s == {a, b} + (s - {a, b});
  }

  /** The source's index key. */
  function Key(row: Row): (string, Option<string>) {
    (row.accountId, row.identifier)
  }

  /** The rows of a list that share a key, in list order. */
  function WithKey(stored: seq<Row>, key: (string, Option<string>)): seq<Row> {
    if stored == [] then []
    else
      var front := WithKey(stored[..|stored| - 1], key);
      if Key(stored[|stored| - 1]) == key then front + [stored[|stored| - 1]] else front
  }

  lemma {:induction false} WithKeyMembers(stored: seq<Row>, key: (string, Option<string>))
    ensures forall row :: row in WithKey(stored, key) <==> row in stored && Key(row) == key
    ensures DistinctIds(stored) ==> DistinctIds(WithKey(stored, key))
  {
    if stored != [] {
      var front, last := stored[..|stored| - 1], stored[|stored| - 1];
      assert stored == front + [last];
      WithKeyMembers(front, key);
      if DistinctIds(stored) {
        assert forall row :: row in front ==> row.id != last.id;
      }
    }
  }

  /** Looking only at rows of the same account and identifier finds the same installment as looking at all. */
  lemma IndexFindsTheSame(setting: Setting, stored: seq<Row>, incoming: Row)
    requires DistinctIds(stored)
    ensures Find(setting, ById(WithKey(stored, Key(incoming))), incoming) == Find(setting, ById(stored), incoming)
  {
    var some := WithKey(stored, Key(incoming));
    WithKeyMembers(stored, Key(incoming));
    ByIdMembers(stored);
    ByIdMembers(some);
    var a, b := MatchIds(setting, ById(some), incoming), MatchIds(setting, ById(stored), incoming);
    forall id
      ensures id in a <==> id in b
      ensures id in a ==> ById(some)[id] == ById(stored)[id]
    {
      if id in a {
        assert ById(some)[id] in stored;
      }
      if id in b {
        assert ById(stored)[id] in some;
      }
    }
    assert a == b;
  }

  type Index = map<(string, Option<string>), seq<Row>>

  function Candidates(index: Index, key: (string, Option<string>)): seq<Row> {
    if key in index then index[key] else []
  }

  ghost predicate Indexes(index: Index, stored: seq<Row>) {
    forall key :: Candidates(index, key) == WithKey(stored, key)
  }

  method BuildIndex(stored: seq<Row>) returns (byId: map<string, Row>, byIdentifier: Index)
    ensures byId == ById(stored) && Indexes(byIdentifier, stored)
  {
    byId, byIdentifier := map[], map[];
    for i := 0 to |stored|
      invariant byId == ById(stored[..i]) && Indexes(byIdentifier, stored[..i])
    {
      assert stored[..i + 1][..i] == stored[..i];
      byId := byId[stored[i].id := stored[i]];
      byIdentifier := byIdentifier[Key(stored[i]) := Candidates(byIdentifier, Key(stored[i])) + [stored[i]]];
    }
    assert stored[..|stored|] == stored;
  }

  method FindCanonical(setting: Setting, byId: map<string, Row>, byIdentifier: Index, ghost stored: seq<Row>, incoming: Row)
    returns (r: Result<Option<Row>, LedgerError>)
    requires DistinctIds(stored) && byId == ById(stored) && Indexes(byIdentifier, stored)
    ensures r == Canonical(setting, ById(stored), incoming)
  {
    if incoming.id in byId {
      return Ok(Some(byId[incoming.id]));
    }
    WithKeyMembers(stored, Key(incoming));
    IndexFindsTheSame(setting, stored, incoming);
    r := FindArchiveInstallment(setting, Candidates(byIdentifier, Key(incoming)), incoming);
  }

  /** Resolve a whole batch before anything is written. */
  method ResolveArchiveInstallments(setting: Setting, batch: seq<Row>, stored: seq<Row>) returns (r: Result<map<string, Row>, LedgerError>)
    requires DistinctIds(stored)
    ensures r == Resolve(setting, ById(stored), batch)
  {
    var byId, byIdentifier := BuildIndex(stored);
    var resolved: map<string, Row> := map[];
    var claimed: map<string, string> := map[];
    for i := 0 to |batch|
      invariant Resolve(setting, byId, batch) == ResolveFrom(setting, byId, batch[i..], resolved, claimed)
    {
      var incoming := batch[i];
      assert batch[i..][0] == incoming && batch[i..][1..] == batch[i + 1..];
      var found := FindCanonical(setting, byId, byIdentifier, stored, incoming);
      if found.Err? {
        return Err(found.error);
      }
      if found.value.Some? {
        var canonical := found.value.value;
        if canonical.id in claimed && claimed[canonical.id] != incoming.id {
          return Err(DoublyClaimed);
        }
        claimed := claimed[canonical.id := incoming.id];
        resolved := resolved[incoming.id := canonical];
      }
    }
    r := Ok(resolved);
  }

  // ---------------------------------------------------------------- explicit pairs

  function PairIds(pairs: seq<Pair>): seq<string> {
    if pairs == [] then [] else [pairs[0].canonicalId, pairs[0].duplicateId] + PairIds(pairs[1..])
  }

  ghost predicate AllDistinct(ids: seq<string>) {
    forall i, j :: 0 <= i < j < |ids| ==> ids[i] != ids[j]
  }

  /** One reviewed pair still describes the stored rows exactly. */
  ghost function CheckPair(setting: Setting, rows: map<string, Row>, pair: Pair): Result<(Row, Row), LedgerError> {
    if pair.canonicalId !in rows || pair.duplicateId !in rows then Err(PreStateChanged)
    else
      var canonical, duplicate := rows[pair.canonicalId], rows[pair.duplicateId];
      if setting.digest(canonical) != pair.canonicalStateHash || setting.digest(duplicate) != pair.duplicateStateHash
      then Err(PreStateChanged)
      else match Find(setting, rows, duplicate)
        case Err(e) => Err(e)
        case Ok(None) => Err(PreStateChanged)
        case Ok(Some(found)) => if found.id == canonical.id then Ok((canonical, duplicate)) else Err(PreStateChanged)
  }

  ghost function CheckPairs(setting: Setting, rows: map<string, Row>, pairs: seq<Pair>): Result<seq<(Row, Row)>, LedgerError> {
    if pairs == [] then Ok([])
    else match CheckPair(setting, rows, pairs[0])
      case Err(e) => Err(e)
      case Ok(first) => Prefixed([first], CheckPairs(setting, rows, pairs[1..]))
  }

  ghost function Validate(setting: Setting, rows: map<string, Row>, pairs: seq<Pair>): Result<seq<(Row, Row)>, LedgerError> {
    if |pairs| == 0 || |pairs| > 100 then Err(PairCount)
    else if !AllDistinct(PairIds(pairs)) then Err(PairsNotDistinct)
    else CheckPairs(setting, rows, pairs)
  }

  method FindRow(rows: seq<Row>, id: string) returns (r: Option<Row>)
    requires DistinctIds(rows)
    ensures r == if id in ById(rows) then Some(ById(rows)[id]) else None
  {
    ByIdMembers(rows);
    for i := 0 to |rows|
      invariant forall j :: 0 <= j < i ==> rows[j].id != id
    {
      if rows[i].id == id {
        return Some(rows[i]);
      }
    }
    r := None;
  }

  method ValidatePair(setting: Setting, pair: Pair, rows: seq<Row>) returns (r: Result<(Row, Row), LedgerError>)
    requires DistinctIds(rows)
    ensures r == CheckPair(setting, ById(rows), pair)
  {
    var canonical := FindRow(rows, pair.canonicalId);
    var duplicate := FindRow(rows, pair.duplicateId);
    if canonical.None? || duplicate.None? {
      return Err(PreStateChanged);
    }
    if setting.digest(canonical.value) != pair.canonicalStateHash || setting.digest(duplicate.value) != pair.duplicateStateHash {
      return Err(PreStateChanged);
    }
    var found := FindArchiveInstallment(setting, rows, duplicate.value);
    if found.Err? {
      return Err(found.error);
    }
    if found.value.None? || found.value.value.id != canonical.value.id {
      return Err(PreStateChanged);
    }
    r := Ok((canonical.value, duplicate.value));
  }

  method IdsDistinct(ids: seq<string>) returns (distinct: bool)
    ensures distinct <==> AllDistinct(ids)
  {
    var seen: set<string> := {};
    for i := 0 to |ids|
      invariant seen == set j | 0 <= j < i :: ids[j]
      invariant AllDistinct(ids[..i])
    {
      if ids[i] in seen {
        return false;
      }
      seen := seen + {ids[i]};
    }
    assert ids[..|ids|] == ids;
    distinct := true;
  }

  /** Every pair is checked before any row is written. */
  method ValidateArchiveInstallmentPairs(setting: Setting, pairs: seq<Pair>, rows: seq<Row>) returns (r: Result<seq<(Row, Row)>, LedgerError>)
    requires DistinctIds(rows)
    ensures r == Validate(setting, ById(rows), pairs)
  {
    if |pairs| == 0 || |pairs| > 100 {
      return Err(PairCount);
    }
    var distinct := IdsDistinct(PairIds(pairs));
    if !distinct {
      return Err(PairsNotDistinct);
    }
    var validated: seq<(Row, Row)> := [];
    assert pairs[0..] == pairs;
    PrefixedEmpty(CheckPairs(setting, ById(rows), pairs));
    for i := 0 to |pairs|
      invariant CheckPairs(setting, ById(rows), pairs) == Prefixed(validated, CheckPairs(setting, ById(rows), pairs[i..]))
    {
      assert pairs[i..][0] == pairs[i] && pairs[i..][1..] == pairs[i + 1..];
      var checked := ValidatePair(setting, pairs[i], rows);
      if checked.Err? {
        return Err(checked.error);
      }
      PrefixedTwice(validated, checked.value, CheckPairs(setting, ById(rows), pairs[i + 1..]));
      validated := validated + [checked.value];
    }
    assert validated + [] == validated;
    r := Ok(validated);
  }

  ghost function Prefixed(front: seq<(Row, Row)>, r: Result<seq<(Row, Row)>, LedgerError>): Result<seq<(Row, Row)>, LedgerError> {
    match r
    case Err(e) => Err(e)
    case Ok(rest) => Ok(front + rest)
  }

  lemma PrefixedEmpty(r: Result<seq<(Row, Row)>, LedgerError>)
    ensures Prefixed([], r) == r
  {
    if r.Ok? {
      assert [] + r.value == r.value;
    }
  }

  lemma PrefixedTwice(front: seq<(Row, Row)>, pair: (Row, Row), r: Result<seq<(Row, Row)>, LedgerError>)
    ensures Prefixed(front, Prefixed([pair], r)) == Prefixed(front + [pair], r)
  {
    if r.Ok? {
      assert front + ([pair] + r.value) == front + [pair] + r.value;
    }
  }
}
