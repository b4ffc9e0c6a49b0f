/** The SQLite ledger refines the in-memory ledger over every run of operations. */
module LedgerAgreement {
  import opened Common
  import opened LedgerRows
  import opened ArchiveInstallments
  import Memory = MemoryLedger
  import Sqlite = SqliteLedger
  import opened LedgerCoalescing
  import opened LedgerHistory

  /** The payments of a list without those that repeat an earlier transaction id. */
  function FirstPayments(payments: seq<Payment>): seq<Payment> {
    if payments == [] then []
    else
      var front, last := payments[..|payments| - 1], payments[|payments| - 1];
      FirstPayments(front) + if HasPayment(front, last.transactionId) then [] else [last]
  }

  lemma {:induction false} FirstPaymentsHasSame(payments: seq<Payment>, id: string)
    ensures HasPayment(FirstPayments(payments), id) <==> HasPayment(payments, id)
  {
    if payments != [] {
      var front, last := payments[..|payments| - 1], payments[|payments| - 1];
      FirstPaymentsHasSame(front, id);
      AppendedPayment(front, last, id);
      AppendedPayment(FirstPayments(front), last, id);
      assert front + [last] == payments;
      assert FirstPayments(front) + [] == FirstPayments(front);
    }
  }

  lemma AppendedPayment(front: seq<Payment>, last: Payment, id: string)
    ensures HasPayment(front + [last], id) <==> HasPayment(front, id) || last.transactionId == id
  {
    var all := front + [last];
    if HasPayment(front, id) {
      var i :| 0 <= i < |front| && front[i].transactionId == id;
      assert all[i].transactionId == id;
    }
    assert all[|front|] == last;
  }

  /** The tables hold the ledger's rows and log, and its payments without the repeated ones. */
  ghost predicate Represents(t: Sqlite.Tables, l: Ledger) {
    && Sqlite.ValidTable(t.transactions) && Sqlite.RowsOf(t.transactions) == l.rows
    && t.anomalies == l.anomalies && t.payments == FirstPayments(l.payments)
  }

  /** A transaction id determines its company. */
  ghost predicate CompanyStable(rows: map<string, Row>, batch: seq<Row>) {
    forall i :: 0 <= i < |batch| && batch[i].id in rows ==> rows[batch[i].id].company == batch[i].company
  }

  // ================================================================ resolution

  /** `some` are exactly the visaCal rows of `all`. */
  ghost predicate VisaCalOnly(some: map<string, Row>, all: map<string, Row>) {
    forall id :: (id in some <==> id in all && all[id].company == "visaCal") && (id in some ==> some[id] == all[id])
  }

  lemma FindAgrees(setting: Setting, some: map<string, Row>, all: map<string, Row>, incoming: Row)
    requires VisaCalOnly(some, all)
    ensures Find(setting, some, incoming) == Find(setting, all, incoming)
    ensures incoming.company != "visaCal" ==> Find(setting, all, incoming) == Ok(None)
  {
    var a, b := MatchIds(setting, some, incoming), MatchIds(setting, all, incoming);
    assert a == b;
    if incoming.company != "visaCal" {
      assert b == {};
    }
  }

  /** The two claim tables agree on visaCal rows; other rows are only claimed by themselves. */
  ghost predicate ClaimsAgree(some: map<string, Row>, all: map<string, Row>, claimedSome: map<string, string>, claimedAll: map<string, string>) {
    && (forall id :: id in some ==> (id in claimedSome <==> id in claimedAll) && (id in claimedSome ==> claimedSome[id] == claimedAll[id]))
    && (forall id :: id in claimedSome ==> id in some)
    && (forall id :: id in claimedAll && id !in some ==> claimedAll[id] == id)
  }

  /** Aliases agree on ids that are not stored. */
  ghost predicate AliasesAgree(all: map<string, Row>, a: map<string, Row>, b: map<string, Row>) {
    forall id :: id !in all ==> (id in a <==> id in b) && (id in a ==> a[id] == b[id])
  }

  lemma ClaimedTogether(some: map<string, Row>, all: map<string, Row>, cs: map<string, string>, ca: map<string, string>, id: string, claimant: string)
    requires ClaimsAgree(some, all, cs, ca) && id in some
    ensures ClaimsAgree(some, all, cs[id := claimant], ca[id := claimant])
    ensures id in ca && ca[id] != claimant <==> id in cs && cs[id] != claimant
  {
  }

  /** A stored row of another company: only the in-memory ledger sees it, and it only claims itself. */
  lemma ClaimedBySelf(some: map<string, Row>, all: map<string, Row>, cs: map<string, string>, ca: map<string, string>, id: string)
    requires ClaimsAgree(some, all, cs, ca) && id !in some
    ensures ClaimsAgree(some, all, cs, ca[id := id])
    ensures !(id in ca && ca[id] != id)
  {
  }

  lemma AliasedTogether(all: map<string, Row>, a: map<string, Row>, b: map<string, Row>, id: string, row: Row)
    requires AliasesAgree(all, a, b)
    ensures AliasesAgree(all, a[id := row], b[id := row])
    ensures id in all ==> AliasesAgree(all, a, b[id := row])
  {
  }

  /** The same error, or aliases that agree. */
  ghost predicate SameResolution(all: map<string, Row>, a: Result<map<string, Row>, LedgerError>, b: Result<map<string, Row>, LedgerError>) {
    match b
    case Err(e) => a == b
    case Ok(aliases) => a.Ok? && AliasesAgree(all, a.value, aliases)
  }

  lemma SameResolutionBase(all: map<string, Row>, rs: map<string, Row>, ra: map<string, Row>)
    requires AliasesAgree(all, rs, ra)
    ensures SameResolution(all, Ok(rs), Ok(ra))
    ensures forall e {:trigger Result<map<string, Row>, LedgerError>.Err(e)} :: SameResolution(all, Err(e), Err(e))
  {
  }

  lemma CanonicalAgrees(setting: Setting, some: map<string, Row>, all: map<string, Row>, row: Row)
    requires WellKeyed(all) && VisaCalOnly(some, all) && (row.id in all ==> all[row.id].company == row.company)
    ensures row.id in all && row.id !in some ==>
              Canonical(setting, some, row) == Ok(None) && Canonical(setting, all, row) == Ok(Some(all[row.id]))
    ensures !(row.id in all && row.id !in some) ==> Canonical(setting, some, row) == Canonical(setting, all, row)
    ensures match Canonical(setting, some, row)
            case Ok(Some(c)) => c.id in some && all[c.id] == c
            case _ => true
  {
    FindAgrees(setting, some, all, row);
    FindMeans(setting, all, row);
  }

  lemma {:induction false} ResolveAgrees(setting: Setting, some: map<string, Row>, all: map<string, Row>, batch: seq<Row>,
                      rs: map<string, Row>, cs: map<string, string>, ra: map<string, Row>, ca: map<string, string>)
    requires WellKeyed(all) && VisaCalOnly(some, all) && CompanyStable(all, batch)
    requires ClaimsAgree(some, all, cs, ca) && AliasesAgree(all, rs, ra)
    ensures SameResolution(all, ResolveFrom(setting, some, batch, rs, cs), ResolveFrom(setting, all, batch, ra, ca))
    decreases |batch|
  {
    SameResolutionBase(all, rs, ra);
    hide Canonical, ClaimsAgree, AliasesAgree, SameResolution;
    if batch != [] {
      var row := batch[0];
      CanonicalAgrees(setting, some, all, row);
      assert CompanyStable(all, batch[1..]);
      if row.id in all && row.id !in some {
        ClaimedBySelf(some, all, cs, ca, row.id);
        AliasedTogether(all, rs, ra, row.id, all[row.id]);
        ResolveAgrees(setting, some, all, batch[1..], rs, cs, ra[row.id := all[row.id]], ca[row.id := row.id]);
      } else {
        match Canonical(setting, some, row)
        case Err(e) =>
        case Ok(None) => ResolveAgrees(setting, some, all, batch[1..], rs, cs, ra, ca);
        case Ok(Some(canonical)) =>
          ClaimedTogether(some, all, cs, ca, canonical.id, row.id);
          AliasedTogether(all, rs, ra, row.id, canonical);
          if !(canonical.id in ca && ca[canonical.id] != row.id) {
            ResolveAgrees(setting, some, all, batch[1..], rs[row.id := canonical], cs[canonical.id := row.id],
                          ra[row.id := canonical], ca[canonical.id := row.id]);
          }
      }
    }
  }

  /** `canonical` is a stored row, other than the row itself, that `row` matches. */
  ghost predicate AliasOf(setting: Setting, rows: map<string, Row>, canonical: Row, row: Row) {
    canonical.id in rows && rows[canonical.id] == canonical && canonical.id != row.id && Matches(setting, canonical, row)
  }

  /** Every alias of an unstored row is a stored row it matches. */
  ghost predicate AliasesMatch(setting: Setting, rows: map<string, Row>, batch: seq<Row>, aliases: map<string, Row>) {
    forall i :: 0 <= i < |batch| && batch[i].id !in rows && batch[i].id in aliases ==>
      AliasOf(setting, rows, aliases[batch[i].id], batch[i])
  }

  /** Every alias recorded so far was found for a row of the batch. */
  ghost predicate AliasesFound(setting: Setting, rows: map<string, Row>, batch: seq<Row>, aliases: map<string, Row>) {
    forall id :: id in aliases && id !in rows ==>
      exists i :: 0 <= i < |batch| && batch[i].id == id && AliasOf(setting, rows, aliases[id], batch[i])
  }

  lemma {:induction false} ResolveFinds(setting: Setting, rows: map<string, Row>, batch: seq<Row>, k: nat,
                     resolved: map<string, Row>, claimed: map<string, string>)
    requires WellKeyed(rows) && k <= |batch| && AliasesFound(setting, rows, batch, resolved)
    requires ResolveFrom(setting, rows, batch[k..], resolved, claimed).Ok?
    ensures AliasesFound(setting, rows, batch, ResolveFrom(setting, rows, batch[k..], resolved, claimed).value)
    decreases |batch| - k
  {
    if k < |batch| {
      var row := batch[k];
      assert batch[k..][0] == row && batch[k..][1..] == batch[k + 1..];
      FindMeans(setting, rows, row);
      match Canonical(setting, rows, row)
      case Ok(None) =>
        ResolveFinds(setting, rows, batch, k + 1, resolved, claimed);
      case Ok(Some(canonical)) =>
        assert row.id !in rows ==> AliasOf(setting, rows, canonical, batch[k]);
        ResolveFinds(setting, rows, batch, k + 1, resolved[row.id := canonical], claimed[canonical.id := row.id]);
    }
  }

  lemma ResolveMatches(setting: Setting, rows: map<string, Row>, batch: seq<Row>)
    requires WellKeyed(rows) && DistinctIds(batch) && Resolve(setting, rows, batch).Ok?
    ensures AliasesMatch(setting, rows, batch, Resolve(setting, rows, batch).value)
  {
    assert batch[0..] == batch;
    ResolveFinds(setting, rows, batch, 0, map[], map[]);
    var aliases := Resolve(setting, rows, batch).value;
    forall i | 0 <= i < |batch| && batch[i].id !in rows && batch[i].id in aliases
      ensures AliasOf(setting, rows, aliases[batch[i].id], batch[i])
    {
      var j :| 0 <= j < |batch| && batch[j].id == batch[i].id && AliasOf(setting, rows, aliases[batch[i].id], batch[j]);
      assert i == j;
    }
  }

  // ================================================================ one row, then a batch

  lemma ColumnsCarryRows(row: Row)
    ensures Sqlite.TransactionFromRow(Sqlite.InsertedRow(row)) == row
  {
  }

  /** The UPDATE statement leaves the row the in-memory ledger would build. */
  lemma UpdateRefreshes(table: Sqlite.Table, existing: Row, incoming: Row)
    requires Sqlite.ValidTable(table) && existing.id in table && SameFrozen(existing, Sqlite.TransactionFromRow(table[existing.id]))
    ensures var after := Sqlite.RefreshTransaction(table, existing, incoming);
            && Sqlite.ValidTable(after.0)
            && Sqlite.RowsOf(after.0) == Sqlite.RowsOf(table)[existing.id := Memory.Refreshed(existing, incoming)]
            && after.1 == Memory.VisiblyChanged(existing, incoming)
  {
  }

  lemma DifferentOfThree(a: (Field, string, string), b: (Field, string, string), c: (Field, string, string))
    ensures Sqlite.Different([a, b, c]) == (if a.1 != a.2 then [a] else []) + (if b.1 != b.2 then [b] else []) + (if c.1 != c.2 then [c] else [])
  {
    assert [a, b, c][1..] == [b, c] && [b, c][1..] == [c];
    assert Sqlite.Different([c]) == if c.1 != c.2 then [c] else [];
    assert Sqlite.Different([b, c]) == (if b.1 != b.2 then [b] else []) + Sqlite.Different([c]);
  }

  /** Apart from its label, the list of anomalies is the same in both ledgers. */
  lemma AnomaliesAgree(existing: Row, incoming: Row)
    ensures Sqlite.FrozenFieldAnomalies(existing, incoming)
            == Memory.Report(incoming.id, AmountField, Memory.Money.Format(existing.amount), Memory.Money.Format(incoming.amount), incoming.lastSeen)
               + Memory.Report(incoming.id, BookedDateField, existing.bookedDate, incoming.bookedDate, incoming.lastSeen)
               + Memory.Report(incoming.id, DescriptionField, existing.description, incoming.description, incoming.lastSeen)
  {
    DifferentOfThree((AmountField, Memory.Money.Format(existing.amount), Memory.Money.Format(incoming.amount)),
                     (BookedDateField, existing.bookedDate, incoming.bookedDate),
                     (DescriptionField, existing.description, incoming.description));
  }

  lemma OwnAnomalies(existing: Row, row: Row)
    requires existing.id == row.id
    ensures Sqlite.FrozenFieldAnomalies(existing, row) == Memory.RowAnomalies(existing, row)
  {
    AnomaliesAgree(existing, row);
  }

  /** A match forces equal amounts and descriptions, so an aliased row never raises an anomaly. */
  lemma AliasedAnomalies(setting: Setting, existing: Row, row: Row)
    requires existing.id != row.id && Matches(setting, existing, row)
    ensures Memory.RowAnomalies(existing, row) == []
    ensures Sqlite.FrozenFieldAnomalies(existing, row.(id := existing.id, bookedDate := existing.bookedDate)) == []
  {
    AnomaliesAgree(existing, row.(id := existing.id, bookedDate := existing.bookedDate));
  }

  /** Stored rows stay stored with their frozen fields. */
  ghost predicate Grown(start: map<string, Row>, rows: map<string, Row>) {
    forall id :: id in start ==> id in rows && SameFrozen(start[id], rows[id])
  }

  /** Both ledgers look up the same existing row, which is still stored with its frozen fields. */
  lemma LookupsAgree(setting: Setting, start: map<string, Row>, table: Sqlite.Table, rows: map<string, Row>,
                     aliasesSome: map<string, Row>, aliasesAll: map<string, Row>, row: Row)
    requires WellKeyed(start) && Sqlite.ValidTable(table) && Sqlite.RowsOf(table) == rows
    requires Grown(start, rows) && AliasesAgree(start, aliasesSome, aliasesAll) && AliasesMatch(setting, start, [row], aliasesAll)
    ensures Memory.Known(rows, aliasesAll, row.id) == Sqlite.Stored(table, aliasesSome, row.id)
    ensures match Memory.Known(rows, aliasesAll, row.id)
            case None => row.id !in table
            case Some(existing) =>
              && existing.id in table && SameFrozen(existing, Sqlite.TransactionFromRow(table[existing.id]))
              && (existing.id == row.id || Matches(setting, existing, row))
  {
    if row.id !in rows && row.id in aliasesAll {
      assert [row][0] == row;
      assert AliasOf(setting, start, aliasesAll[row.id], row);
    }
  }

  ghost predicate InStep(start: map<string, Row>, p: Sqlite.Progress, q: Memory.Progress) {
    Sqlite.ValidTable(p.table) && Sqlite.RowsOf(p.table) == q.rows && p.summary == q.summary && Grown(start, q.rows)
  }

  lemma InsertAgrees(start: map<string, Row>, p: Sqlite.Progress, q: Memory.Progress, row: Row)
    requires InStep(start, p, q) && row.id !in p.table
    ensures InStep(start, Sqlite.Progress(p.table[row.id := Sqlite.InsertedRow(row)], p.summary),
                   Memory.Progress(q.rows[row.id := row], q.summary))
  {
    ColumnsCarryRows(row);
    assert Sqlite.RowsOf(p.table[row.id := Sqlite.InsertedRow(row)]) == q.rows[row.id := row];
  }

  lemma RefreshGrows(start: map<string, Row>, rows: map<string, Row>, existing: Row, row: Row)
    requires Grown(start, rows) && existing.id in rows && SameFrozen(existing, rows[existing.id])
    ensures Grown(start, rows[existing.id := Memory.Refreshed(existing, row)])
  {
  }

  lemma RefreshAgrees(start: map<string, Row>, p: Sqlite.Progress, q: Memory.Progress, existing: Row, row: Row)
    requires InStep(start, p, q) && existing.id in p.table
    requires SameFrozen(existing, Sqlite.TransactionFromRow(p.table[existing.id]))
    requires Sqlite.FrozenFieldAnomalies(existing, if existing.id == row.id then row else row.(id := existing.id, bookedDate := existing.bookedDate))
             == Memory.RowAnomalies(existing, row)
    ensures InStep(start, Sqlite.RefreshRow(p, existing, row), Memory.RefreshRow(q, existing, row))
  {
    hide Sqlite.FrozenFieldAnomalies, Memory.RowAnomalies;
    UpdateRefreshes(p.table, existing, row);
    RefreshGrows(start, q.rows, existing, row);
    hide Sqlite.RefreshTransaction, Memory.Refreshed;
  }

  lemma StepAgrees(setting: Setting, start: map<string, Row>, p: Sqlite.Progress, q: Memory.Progress,
                   aliasesSome: map<string, Row>, aliasesAll: map<string, Row>, row: Row)
    requires WellKeyed(start) && InStep(start, p, q)
    requires AliasesAgree(start, aliasesSome, aliasesAll) && AliasesMatch(setting, start, [row], aliasesAll)
    ensures InStep(start, Sqlite.UpsertRow(p, aliasesSome, row), Memory.UpsertRow(q, aliasesAll, row))
  {
    hide Matches, Sqlite.FrozenFieldAnomalies, Memory.RowAnomalies, Sqlite.RefreshRow, Memory.RefreshRow;
    LookupsAgree(setting, start, p.table, q.rows, aliasesSome, aliasesAll, row);
    match Memory.Known(q.rows, aliasesAll, row.id)
    case None => InsertAgrees(start, p, q, row);
    case Some(existing) =>
      if existing.id == row.id {
        OwnAnomalies(existing, row);
      } else {
        AliasedAnomalies(setting, existing, row);
      }
      RefreshAgrees(start, p, q, existing, row);
  }

  lemma {:induction false} StepsAgree(setting: Setting, start: map<string, Row>, p: Sqlite.Progress, q: Memory.Progress,
                   aliasesSome: map<string, Row>, aliasesAll: map<string, Row>, batch: seq<Row>)
    requires WellKeyed(start) && InStep(start, p, q)
    requires AliasesAgree(start, aliasesSome, aliasesAll) && AliasesMatch(setting, start, batch, aliasesAll)
    ensures InStep(start, Sqlite.UpsertRows(p, aliasesSome, batch), Memory.UpsertRows(q, aliasesAll, batch))
    decreases |batch|
  {
    if batch != [] {
      hide Matches, Sqlite.UpsertRow, Memory.UpsertRow, InStep;
      StepAgrees(setting, start, p, q, aliasesSome, aliasesAll, batch[0]);
      StepsAgree(setting, start, Sqlite.UpsertRow(p, aliasesSome, batch[0]), Memory.UpsertRow(q, aliasesAll, batch[0]),
                 aliasesSome, aliasesAll, batch[1..]);
    }
  }

  /** A batch upsert fails in both ledgers or in neither, with the same error, rows, summary and anomaly log. */
  lemma UpsertsAgree(t: Sqlite.Tables, l: Ledger, setting: Option<Setting>, batch: seq<Row>)
    requires Represents(t, l) && DistinctIds(batch) && CompanyStable(l.rows, batch)
    ensures match Memory.Upserted(l, setting, batch)
            case Err(e) => Sqlite.Upserted(t, setting, batch) == Err(e)
            case Ok((after, summary)) =>
              && Sqlite.Upserted(t, setting, batch).Ok?
              && var (t', summary') := Sqlite.Upserted(t, setting, batch).value;
              Represents(t', after) && summary' == summary
  {
    hide FirstPayments;
    var all, some := l.rows, Sqlite.VisaCalRows(t.transactions);
    var s := if setting.Some? then setting.value else Setting(_ => None, _ => "");
    if setting.Some? {
      ResolveAgrees(s, some, all, batch, map[], map[], map[], map[]);
      if Resolve(s, all, batch).Ok? {
        ResolveMatches(s, all, batch);
      }
    }
    if Memory.Aliases(setting, all, batch).Ok? {
      StepsAgree(s, all, Sqlite.Progress(t.transactions, EMPTY_SUMMARY), Memory.Progress(all, EMPTY_SUMMARY),
                 Sqlite.Aliases(setting, t.transactions, batch).value, Memory.Aliases(setting, all, batch).value, batch);
    }
  }

  // ================================================================ coalescing

  /**
   * The ledgers see this pair differently: a stored canonical row of another company, which SQLite never reads,
   * and a duplicate whose archived installment is ambiguous; both as reviewed.
   */
  ghost predicate Splits(setting: Setting, all: map<string, Row>, pair: Pair) {
    && pair.canonicalId in all && all[pair.canonicalId].company != "visaCal" && pair.duplicateId in all
    && setting.digest(all[pair.canonicalId]) == pair.canonicalStateHash
    && setting.digest(all[pair.duplicateId]) == pair.duplicateStateHash
    && |MatchIds(setting, all, all[pair.duplicateId])| > 1
  }

  lemma CheckPairAgrees(setting: Setting, some: map<string, Row>, all: map<string, Row>, pair: Pair)
    requires WellKeyed(all) && VisaCalOnly(some, all)
    ensures CheckPair(setting, some, pair) != CheckPair(setting, all, pair) <==> Splits(setting, all, pair)
    ensures Splits(setting, all, pair) ==>
              CheckPair(setting, all, pair) == Err(AmbiguousArchive) && CheckPair(setting, some, pair) == Err(PreStateChanged)
  {
    if pair.duplicateId in all {
      FindAgrees(setting, some, all, all[pair.duplicateId]);
      FindMeans(setting, all, all[pair.duplicateId]);
    }
    hide Find, MatchIds, Matches;
  }

  /** The first pair to fail is one the ledgers see differently. */
  ghost predicate FirstFailureSplits(setting: Setting, all: map<string, Row>, pairs: seq<Pair>) {
    exists k: nat :: SplitsAt(setting, all, pairs, k)
  }

  ghost predicate SplitsAt(setting: Setting, all: map<string, Row>, pairs: seq<Pair>, k: nat) {
    k < |pairs| && Splits(setting, all, pairs[k]) && forall i :: 0 <= i < k ==> CheckPair(setting, all, pairs[i]).Ok?
  }

  lemma SplitsLater(setting: Setting, all: map<string, Row>, pairs: seq<Pair>, k: nat)
    requires pairs != []
    ensures SplitsAt(setting, all, pairs, k + 1) <==> CheckPair(setting, all, pairs[0]).Ok? && SplitsAt(setting, all, pairs[1..], k)
  {
    hide Splits, CheckPair;
    var rest := pairs[1..];
    if CheckPair(setting, all, pairs[0]).Ok? && SplitsAt(setting, all, rest, k) {
      assert forall i :: 0 < i < k + 1 ==> pairs[i] == rest[i - 1];
    }
    if SplitsAt(setting, all, pairs, k + 1) {
      assert forall i :: 0 <= i < k ==> rest[i] == pairs[i + 1];
    }
  }

  lemma FirstFailureAt(setting: Setting, all: map<string, Row>, pairs: seq<Pair>)
    requires pairs != []
    ensures FirstFailureSplits(setting, all, pairs) <==>
              Splits(setting, all, pairs[0]) || (CheckPair(setting, all, pairs[0]).Ok? && FirstFailureSplits(setting, all, pairs[1..]))
  {
    assert SplitsAt(setting, all, pairs, 0) <==> Splits(setting, all, pairs[0]);
    hide Splits, CheckPair, SplitsAt;
    forall k: nat
      ensures SplitsAt(setting, all, pairs, k + 1) <==> CheckPair(setting, all, pairs[0]).Ok? && SplitsAt(setting, all, pairs[1..], k)
    {
      SplitsLater(setting, all, pairs, k);
    }
    if FirstFailureSplits(setting, all, pairs) {
      var k: nat :| SplitsAt(setting, all, pairs, k);
      if k > 0 {
        SplitsLater(setting, all, pairs, k - 1);
      }
    }
  }

  lemma {:induction false} CheckPairsAgree(setting: Setting, some: map<string, Row>, all: map<string, Row>, pairs: seq<Pair>)
    requires WellKeyed(all) && VisaCalOnly(some, all)
    ensures CheckPairs(setting, some, pairs) != CheckPairs(setting, all, pairs) <==> FirstFailureSplits(setting, all, pairs)
    ensures FirstFailureSplits(setting, all, pairs) ==>
              CheckPairs(setting, all, pairs) == Err(AmbiguousArchive) && CheckPairs(setting, some, pairs) == Err(PreStateChanged)
  {
    if pairs != [] {
      CheckPairAgrees(setting, some, all, pairs[0]);
      FirstFailureAt(setting, all, pairs);
      hide CheckPair, Splits, FirstFailureSplits;
      CheckPairsAgree(setting, some, all, pairs[1..]);
    }
  }

  lemma {:induction false} CoalesceRowsAgree(table: Sqlite.Table, rows: map<string, Row>, pairs: seq<(Row, Row)>)
    requires Sqlite.ValidTable(table) && Sqlite.RowsOf(table) == rows && DistinctPairs(pairs)
    requires forall i :: 0 <= i < |pairs| ==> pairs[i].0.id in rows && rows[pairs[i].0.id] == pairs[i].0 && pairs[i].0.status.Posted?
    ensures Sqlite.ValidTable(Sqlite.CoalesceRows(table, pairs))
    ensures Sqlite.RowsOf(Sqlite.CoalesceRows(table, pairs)) == Memory.CoalesceRows(rows, pairs)
    decreases |pairs|
  {
    if pairs != [] {
      var canonical, duplicate, rest := pairs[0].0, pairs[0].1, pairs[1..];
      UpdateRefreshes(table, canonical, duplicate);
      var table' := Sqlite.RefreshTransaction(table, canonical, duplicate).0;
      assert Memory.Refreshed(canonical, duplicate) == Memory.Coalesced(canonical, duplicate);
      var rows' := rows[canonical.id := Memory.Coalesced(canonical, duplicate)];
      hide Sqlite.RefreshTransaction, Memory.Coalesced, Memory.Refreshed;
      assert Sqlite.RowsOf(table' - {duplicate.id}) == rows' - {duplicate.id};
      assert forall i :: 0 <= i < |rest| ==> rest[i] == pairs[i + 1];
      CoalesceRowsAgree(table' - {duplicate.id}, rows' - {duplicate.id}, rest);
    }
  }

  /** Both ledgers refuse the list of pairs, but for different reasons. */
  ghost predicate ErrorsDiffer(setting: Setting, all: map<string, Row>, pairs: seq<Pair>) {
    1 <= |pairs| <= 100 && AllDistinct(PairIds(pairs)) && FirstFailureSplits(setting, all, pairs)
  }

  lemma ValidateAgrees(setting: Setting, table: Sqlite.Table, pairs: seq<Pair>)
    requires Sqlite.ValidTable(table)
    ensures var rows := Sqlite.RowsOf(table);
            var inAll, inSome := Validate(setting, rows, pairs), Validate(setting, Sqlite.VisaCalRows(table), pairs);
            && (inSome != inAll <==> ErrorsDiffer(setting, rows, pairs))
            && (ErrorsDiffer(setting, rows, pairs) ==> inAll == Err(AmbiguousArchive) && inSome == Err(PreStateChanged))
  {
    CheckPairsAgree(setting, Sqlite.VisaCalRows(table), Sqlite.RowsOf(table), pairs);
    hide CheckPairs, PairIds, FirstFailureSplits;
  }

  lemma ValidatedPosted(setting: Setting, rows: map<string, Row>, pairs: seq<Pair>)
    requires WellKeyed(rows) && Validate(setting, rows, pairs).Ok?
    ensures var validated := Validate(setting, rows, pairs).value;
            && DistinctPairs(validated)
            && forall i :: 0 <= i < |validated| ==>
                 validated[i].0.id in rows && rows[validated[i].0.id] == validated[i].0 && validated[i].0.status.Posted?
  {
    ValidateMeans(setting, rows, pairs);
    var validated := Validate(setting, rows, pairs).value;
    hide Validate, MatchIds;
    forall i | 0 <= i < |validated|
      ensures validated[i].0.id in rows && rows[validated[i].0.id] == validated[i].0 && validated[i].0.status.Posted?
    {
      assert CheckedPair(setting, rows, validated[i]);
    }
  }

  lemma SameDependents(anomalies: seq<Anomaly>, payments: seq<Payment>, validated: seq<(Row, Row)>)
    ensures Depended(anomalies, FirstPayments(payments), validated) <==> Depended(anomalies, payments, validated)
  {
    forall i | 0 <= i < |validated|
      ensures HasPayment(FirstPayments(payments), validated[i].1.id) <==> HasPayment(payments, validated[i].1.id)
    {
      FirstPaymentsHasSame(payments, validated[i].1.id);
    }
    hide HasPayment, HasAnomaly, FirstPayments;
  }

  /**
   * Coalescing fails in both ledgers or in neither, with the same counts, rows and log. The errors differ exactly
   * when the first failing pair names a stored canonical row of another company for an ambiguous duplicate.
   */
  lemma CoalescesAgree(t: Sqlite.Tables, l: Ledger, setting: Setting, pairs: seq<Pair>, dryRun: bool)
    requires Represents(t, l)
    ensures var memory, sqlite := Memory.CoalescedLedger(l, setting, pairs, dryRun), Sqlite.CoalescedTables(t, setting, pairs, dryRun);
            && (memory.Ok? <==> sqlite.Ok?)
            && (memory.Ok? ==> Represents(sqlite.value.0, memory.value.0) && sqlite.value.1 == memory.value.1)
            && (memory.Err? ==> (sqlite.error != memory.error <==> ErrorsDiffer(setting, l.rows, pairs)))
            && (ErrorsDiffer(setting, l.rows, pairs) ==> memory == Err(AmbiguousArchive) && sqlite == Err(PreStateChanged))
  {
    hide Validate, ErrorsDiffer, Sqlite.CoalesceRows, Memory.CoalesceRows, FirstPayments, Depended;
    ValidateAgrees(setting, t.transactions, pairs);
    if Validate(setting, l.rows, pairs).Ok? {
      var validated := Validate(setting, l.rows, pairs).value;
      SameDependents(l.anomalies, l.payments, validated);
      ValidatedPosted(setting, l.rows, pairs);
      CoalesceRowsAgree(t.transactions, l.rows, validated);
    }
  }

  // ================================================================ runs

  datatype Op =
    | UpsertOp(setting: Option<Setting>, batch: seq<Row>)
    | CoalesceOp(zone: Setting, pairs: seq<Pair>, dryRun: bool)
    | RecordOp(items: seq<Anomaly>)
    | PaymentOp(payment: Payment)

  datatype Reply =
    | UpsertReply(summary: Result<Summary, LedgerError>)
    | CoalesceReply(count: Result<CoalesceCount, LedgerError>)
    | PaymentReply(refused: Option<LedgerError>)
    | Done

  ghost function MemoryStep(l: Ledger, op: Op): (Ledger, Reply) {
    match op
    case UpsertOp(setting, batch) =>
      (match Memory.Upserted(l, setting, batch)
       case Err(e) => (l, UpsertReply(Err(e)))
       case Ok((after, summary)) => (after, UpsertReply(Ok(summary))))
    case CoalesceOp(zone, pairs, dryRun) =>
      (match Memory.CoalescedLedger(l, zone, pairs, dryRun)
       case Err(e) => (l, CoalesceReply(Err(e)))
       case Ok((after, count)) => (after, CoalesceReply(Ok(count))))
    case RecordOp(items) => (l.(anomalies := l.anomalies + items), Done)
    case PaymentOp(payment) => (l.(payments := l.payments + [payment]), PaymentReply(None))
  }

  ghost function SqliteStep(t: Sqlite.Tables, op: Op): (Sqlite.Tables, Reply) {
    match op
    case UpsertOp(setting, batch) =>
      (match Sqlite.Upserted(t, setting, batch)
       case Err(e) => (t, UpsertReply(Err(e)))
       case Ok((after, summary)) => (after, UpsertReply(Ok(summary))))
    case CoalesceOp(zone, pairs, dryRun) =>
      (match Sqlite.CoalescedTables(t, zone, pairs, dryRun)
       case Err(e) => (t, CoalesceReply(Err(e)))
       case Ok((after, count)) => (after, CoalesceReply(Ok(count))))
    case RecordOp(items) => (t.(anomalies := t.anomalies + items), Done)
    case PaymentOp(payment) =>
      var (payments, refused) := Sqlite.InsertedPayment(t.payments, payment);
      (t.(payments := payments), PaymentReply(refused))
  }

  ghost function MemoryRun(l: Ledger, ops: seq<Op>): (Ledger, seq<Reply>)
    decreases |ops|
  {
    if ops == [] then (l, [])
    else
      var (next, reply) := MemoryStep(l, ops[0]);
      var (last, replies) := MemoryRun(next, ops[1..]);
      (last, [reply] + replies)
  }

  ghost function SqliteRun(t: Sqlite.Tables, ops: seq<Op>): (Sqlite.Tables, seq<Reply>)
    decreases |ops|
  {
    if ops == [] then (t, [])
    else
      var (next, reply) := SqliteStep(t, ops[0]);
      var (last, replies) := SqliteRun(next, ops[1..]);
      (last, [reply] + replies)
  }

  /** The two operations the ledgers answer differently. */
  ghost predicate Differs(l: Ledger, op: Op) {
    match op
    case CoalesceOp(zone, pairs, _) => ErrorsDiffer(zone, l.rows, pairs)
    case PaymentOp(payment) => HasPayment(l.payments, payment.transactionId)
    case _ => false
  }

  /** Every row belongs to the company its id says. */
  ghost predicate Companies(company: string -> string, rows: map<string, Row>) {
    WellKeyed(rows) && forall id :: id in rows ==> rows[id].company == company(id)
  }

  ghost predicate GoodOp(company: string -> string, op: Op) {
    op.UpsertOp? ==> DistinctIds(op.batch) && forall i :: 0 <= i < |op.batch| ==> op.batch[i].company == company(op.batch[i].id)
  }

  lemma UpsertKeepsCompanies(company: string -> string, l: Ledger, op: Op)
    requires op.UpsertOp? && GoodOp(company, op) && Companies(company, l.rows)
    ensures Companies(company, MemoryStep(l, op).0.rows)
  {
    if Memory.Upserted(l, op.setting, op.batch).Ok? {
      var after := Memory.Upserted(l, op.setting, op.batch).value.0.rows;
      BatchEvolves(l, op.setting, op.batch);
      NewRowsAreFromBatch(l, op.setting, op.batch);
      hide Memory.Upserted;
      forall id | id in after
        ensures after[id].company == company(id)
      {
        if id in l.rows {
          assert Evolves(l.rows[id], after[id]);
        }
      }
    }
  }

  lemma CoalesceKeepsCompanies(company: string -> string, l: Ledger, op: Op)
    requires op.CoalesceOp? && Companies(company, l.rows)
    ensures Companies(company, MemoryStep(l, op).0.rows)
  {
    if Memory.CoalescedLedger(l, op.zone, op.pairs, op.dryRun).Ok? && !op.dryRun {
      ValidateMeans(op.zone, l.rows, op.pairs);
      var validated := Validate(op.zone, l.rows, op.pairs).value;
      hide Validate, Matches, MatchIds;
      assert forall i :: 0 <= i < |validated| ==> CheckedPair(op.zone, l.rows, validated[i]);
      CoalesceRowsAfter(l.rows, validated);
      CoalescedCompanies(company, l.rows, validated, Memory.CoalesceRows(l.rows, validated));
    }
  }

  lemma CoalescedCompanies(company: string -> string, rows: map<string, Row>, validated: seq<(Row, Row)>, after: map<string, Row>)
    requires Companies(company, rows) && CoalescedFrom(rows, validated, after)
    requires forall i :: 0 <= i < |validated| ==> validated[i].0.id in rows && rows[validated[i].0.id] == validated[i].0
    ensures Companies(company, after)
  {
    forall id | id in after
      ensures after[id].id == id && after[id].company == company(id)
    {
      if IsCanonical(validated, id) {
        var i :| 0 <= i < |validated| && validated[i].0.id == id;
      }
    }
  }

  lemma PaymentAgrees(t: Sqlite.Tables, l: Ledger, payment: Payment)
    requires t.payments == FirstPayments(l.payments)
    ensures var (payments, refused) := Sqlite.InsertedPayment(t.payments, payment);
            payments == FirstPayments(l.payments + [payment]) && (refused.Some? <==> HasPayment(l.payments, payment.transactionId))
  {
    FirstPaymentsHasSame(l.payments, payment.transactionId);
    assert (l.payments + [payment])[..|l.payments|] == l.payments;
    hide HasPayment;
  }

  lemma StepAgreesWith(company: string -> string, t: Sqlite.Tables, l: Ledger, op: Op)
    requires Represents(t, l) && Companies(company, l.rows) && GoodOp(company, op)
    ensures var (l', a) := MemoryStep(l, op); var (t', b) := SqliteStep(t, op);
            Represents(t', l') && (a != b <==> Differs(l, op)) && Companies(company, l'.rows)
  {
    hide ErrorsDiffer, HasPayment, FirstPayments;
    match op
    case UpsertOp(setting, batch) =>
      UpsertsAgree(t, l, setting, batch);
      UpsertKeepsCompanies(company, l, op);
      hide Memory.Upserted, Sqlite.Upserted;
    case CoalesceOp(zone, pairs, dryRun) =>
      CoalescesAgree(t, l, zone, pairs, dryRun);
      CoalesceKeepsCompanies(company, l, op);
      hide Memory.CoalescedLedger, Sqlite.CoalescedTables;
    case PaymentOp(payment) =>
      PaymentAgrees(t, l, payment);
    case _ =>
  }

  lemma {:induction false} RunLength(l: Ledger, t: Sqlite.Tables, ops: seq<Op>)
    ensures |MemoryRun(l, ops).1| == |ops| && |SqliteRun(t, ops).1| == |ops|
    decreases |ops|
  {
    if ops != [] {
      RunLength(MemoryStep(l, ops[0]).0, SqliteStep(t, ops[0]).0, ops[1..]);
    }
  }

  /** The in-memory ledger before the `k`-th operation. */
  ghost function Before(l: Ledger, ops: seq<Op>, k: nat): Ledger
    requires k <= |ops|
  {
    MemoryRun(l, ops[..k]).0
  }

  lemma BeforeLater(l: Ledger, ops: seq<Op>, k: nat)
    requires 0 < k <= |ops|
    ensures Before(l, ops, k) == Before(MemoryStep(l, ops[0]).0, ops[1..], k - 1)
  {
    assert ops[..k][0] == ops[0] && ops[..k][1..] == ops[1..][..k - 1];
  }

  /**
   * Over every run of upserts, coalesces, recorded anomalies and payments, the two ledgers hold the same rows and
   * anomaly log, and the same payments but for repeated ones. They answer alike except, exactly, a payment
   * for a transaction that has one and a coalesce whose first failing pair the two see differently.
   */
  lemma {:induction false} RunsAgree(company: string -> string, t: Sqlite.Tables, l: Ledger, ops: seq<Op>)
    requires Represents(t, l) && Companies(company, l.rows)
    requires forall i :: 0 <= i < |ops| ==> GoodOp(company, ops[i])
    ensures var (l', a) := MemoryRun(l, ops); var (t', b) := SqliteRun(t, ops);
            && Represents(t', l') && |a| == |ops| == |b|
            && forall k :: 0 <= k < |ops| ==> (a[k] != b[k] <==> Differs(Before(l, ops, k), ops[k]))
    decreases |ops|
  {
    RunLength(l, t, ops);
    if ops != [] {
      StepAgreesWith(company, t, l, ops[0]);
      var l1, t1 := MemoryStep(l, ops[0]).0, SqliteStep(t, ops[0]).0;
      RunsAgree(company, t1, l1, ops[1..]);
      var a, b := MemoryRun(l, ops).1, SqliteRun(t, ops).1;
      forall k | 0 <= k < |ops|
        ensures a[k] != b[k] <==> Differs(Before(l, ops, k), ops[k])
      {
        hide Differs, MemoryStep, SqliteStep, GoodOp, Companies, Represents;
        if k == 0 {
          assert ops[..0] == [];
        } else {
          BeforeLater(l, ops, k);
          assert a[k] == MemoryRun(l1, ops[1..]).1[k - 1] && b[k] == SqliteRun(t1, ops[1..]).1[k - 1];
        }
      }
      hide Differs, MemoryStep, SqliteStep, GoodOp, Companies, Represents;
    }
  }
}
