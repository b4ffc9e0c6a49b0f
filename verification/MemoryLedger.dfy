/** The in-memory ledger: a map of rows and a log of anomalies, changed in loops. */
module MemoryLedger {
  import opened Common
  import opened LedgerRows
  import opened ArchiveInstallments
  import Money

  // ---------------------------------------------------------------- one row

  function RefreshedStatus(existing: Row, incoming: Row): Status {
    if existing.status.Pending? && incoming.status.Posted? then Posted else existing.status
  }

  predicate VisiblyChanged(existing: Row, incoming: Row) {
    || RefreshedStatus(existing, incoming) != existing.status
    || existing.chargeDate != incoming.chargeDate || existing.category != incoming.category || existing.memo != incoming.memo
  }

  /** The existing row with its refreshable fields taken from the incoming one. */
  function Refreshed(existing: Row, incoming: Row): Row {
    var status := RefreshedStatus(existing, incoming);
    existing.(
      status := status,
      postedSeenAt := existing.postedSeenAt.Or(if status == existing.status then None else Some(incoming.lastSeen)),
      chargeDate := incoming.chargeDate.Or(existing.chargeDate),
      category := incoming.category.Or(existing.category),
      memo := incoming.memo.Or(existing.memo),
      raw := PreserveArchiveRaw(existing, incoming),
      lastSeen := incoming.lastSeen)
  }

  function Report(id: string, field: Field, previous: string, incoming: string, seenAt: int): seq<Anomaly> {
    if previous != incoming then [Anomaly(id, field, previous, incoming, seenAt)] else []
  }

  /** Frozen fields that came back different, named after the incoming row. */
  function RowAnomalies(existing: Row, row: Row): seq<Anomaly> {
    Report(row.id, AmountField, Money.Format(existing.amount), Money.Format(row.amount), row.lastSeen)
    + Report(row.id, BookedDateField, existing.bookedDate, (if existing.id == row.id then row else existing).bookedDate, row.lastSeen)
    + Report(row.id, DescriptionField, existing.description, row.description, row.lastSeen)
  }

  // ---------------------------------------------------------------- a batch

  datatype Progress = Progress(rows: map<string, Row>, summary: Summary)

  function Known(rows: map<string, Row>, aliases: map<string, Row>, id: string): Option<Row> {
    if id in rows then Some(rows[id]) else if id in aliases then Some(aliases[id]) else None
  }

  function Counted(summary: Summary, changed: bool, anomalies: seq<Anomaly>): Summary {
    Summary(summary.inserted, if changed then summary.updated + 1 else summary.updated,
            if changed then summary.same else summary.same + 1, summary.anomalies + anomalies)
  }

  function RefreshRow(p: Progress, existing: Row, row: Row): Progress {
    Progress(p.rows[existing.id := Refreshed(existing, row)],
             Counted(p.summary, VisiblyChanged(existing, row), RowAnomalies(existing, row)))
  }

  function UpsertRow(p: Progress, aliases: map<string, Row>, row: Row): Progress {
    match Known(p.rows, aliases, row.id)
    case None => Progress(p.rows[row.id := row], p.summary.(inserted := p.summary.inserted + 1))
    case Some(existing) => RefreshRow(p, existing, row)
  }

  function UpsertRows(p: Progress, aliases: map<string, Row>, batch: seq<Row>): Progress
    decreases |batch|
  {
    if batch == [] then p else UpsertRows(UpsertRow(p, aliases, batch[0]), aliases, batch[1..])
  }

  /** Archived installments are looked for only when a time zone is given. */
  ghost function Aliases(setting: Option<Setting>, rows: map<string, Row>, batch: seq<Row>): Result<map<string, Row>, LedgerError> {
    if setting.None? then Ok(map[]) else Resolve(setting.value, rows, batch)
  }

  ghost function Upserted(l: Ledger, setting: Option<Setting>, batch: seq<Row>): Result<(Ledger, Summary), LedgerError> {
    match Aliases(setting, l.rows, batch)
    case Err(e) => Err(e)
    case Ok(aliases) =>
      var p := UpsertRows(Progress(l.rows, EMPTY_SUMMARY), aliases, batch);
      Ok((Ledger(p.rows, l.anomalies + p.summary.anomalies, l.payments), p.summary))
  }

  // ---------------------------------------------------------------- coalescing reviewed pairs

  function Coalesced(canonical: Row, duplicate: Row): Row {
    canonical.(
      chargeDate := duplicate.chargeDate.Or(canonical.chargeDate),
      category := duplicate.category.Or(canonical.category),
      memo := duplicate.memo.Or(canonical.memo),
      raw := PreserveArchiveRaw(canonical, duplicate),
      lastSeen := duplicate.lastSeen)
  }

  function CoalesceRows(rows: map<string, Row>, validated: seq<(Row, Row)>): map<string, Row>
    decreases |validated|
  {
    if validated == [] then rows
    else
      var (canonical, duplicate) := validated[0];
      CoalesceRows(rows[canonical.id := Coalesced(canonical, duplicate)] - {duplicate.id}, validated[1..])
  }

  ghost function CoalescedLedger(l: Ledger, setting: Setting, pairs: seq<Pair>, dryRun: bool): Result<(Ledger, CoalesceCount), LedgerError> {
    match Validate(setting, l.rows, pairs)
    case Err(e) => Err(e)
    case Ok(validated) =>
      if Depended(l.anomalies, l.payments, validated) then Err(HasDependents)
      else if dryRun then Ok((l, CoalesceCount(|validated|, 0)))
      else Ok((l.(rows := CoalesceRows(l.rows, validated)), CoalesceCount(|validated|, |validated|)))
  }

  // ---------------------------------------------------------------- the ledger object

  class MemoryLedger {
    var transactions: map<string, Row>
    var anomalies: seq<Anomaly>
    var payments: seq<Payment>

    ghost function State(): Ledger
      reads this
    {
      Ledger(transactions, anomalies, payments)
    }

    ghost predicate Valid()
      reads this
    {
      WellKeyed(transactions)
    }

    constructor ()
      ensures Valid() && State() == Ledger(map[], [], [])
    {
      transactions, anomalies, payments := map[], [], [];
    }

    /** The rows as a list, in some order. */
    method Values() returns (rows: seq<Row>)
      requires Valid()
      ensures DistinctIds(rows) && ById(rows) == transactions
    {
      rows := [];
      var ids := transactions.Keys;
      while ids != {}
        invariant ids <= transactions.Keys
        invariant DistinctIds(rows)
        invariant ById(rows) == map id | id in transactions && id !in ids :: transactions[id]
        invariant forall i :: 0 <= i < |rows| ==> rows[i].id !in ids
        decreases |ids|
      {
        var id :| id in ids;
        assert (rows + [transactions[id]])[..|rows|] == rows;
        rows := rows + [transactions[id]];
        ids := ids - {id};
      }
    }

    method UpsertTransactions(setting: Option<Setting>, batch: seq<Row>) returns (r: Result<Summary, LedgerError>)
      requires Valid()
      modifies this
      ensures Valid()
      ensures match Upserted(old(State()), setting, batch)
              case Err(e) => r == Err(e) && State() == old(State())
              case Ok((after, summary)) => r == Ok(summary) && State() == after
    {
      var aliases: map<string, Row> := map[];
      if setting.Some? {
        var stored := Values();
        ByIdMembers(stored);
        var resolved := ResolveArchiveInstallments(setting.value, batch, stored);
        if resolved.Err? {
          return Err(resolved.error);
        }
        aliases := resolved.value;
      }
      var summary := WriteRows(aliases, batch);
      anomalies := anomalies + summary.anomalies;
      r := Ok(summary);
    }

    /** Insert or refresh one row of a batch. */
    method WriteRow(aliases: map<string, Row>, row: Row, counted: Summary) returns (summary: Summary)
      requires Valid()
      modifies this`transactions
      ensures Valid()
      ensures Progress(transactions, summary) == UpsertRow(Progress(old(transactions), counted), aliases, row)
    {
      var known := Known(transactions, aliases, row.id);
      if known.None? {
        transactions := transactions[row.id := row];
        return counted.(inserted := counted.inserted + 1);
      }
      var existing := known.value;
      summary := Counted(counted, VisiblyChanged(existing, row), RowAnomalies(existing, row));
      transactions := transactions[existing.id := Refreshed(existing, row)];
    }

    method WriteRows(aliases: map<string, Row>, batch: seq<Row>) returns (summary: Summary)
      requires Valid()
      modifies this`transactions
      ensures Valid()
      ensures Progress(transactions, summary) == UpsertRows(Progress(old(transactions), EMPTY_SUMMARY), aliases, batch)
    {
      hide UpsertRow;
      summary := EMPTY_SUMMARY;
      ghost var before := transactions;
      for i := 0 to |batch|
        invariant Valid()
        invariant UpsertRows(Progress(before, EMPTY_SUMMARY), aliases, batch)
                  == UpsertRows(Progress(transactions, summary), aliases, batch[i..])
      {
        assert batch[i..][0] == batch[i] && batch[i..][1..] == batch[i + 1..];
        summary := WriteRow(aliases, batch[i], summary);
      }
    }

    method AnyPayment(id: string) returns (found: bool)
      ensures found <==> HasPayment(payments, id)
    {
      for i := 0 to |payments|
        invariant forall j :: 0 <= j < i ==> payments[j].transactionId != id
      {
        if payments[i].transactionId == id {
          return true;
        }
      }
      found := false;
    }

    method AnyAnomaly(id: string) returns (found: bool)
      ensures found <==> HasAnomaly(anomalies, id)
    {
      for i := 0 to |anomalies|
        invariant forall j :: 0 <= j < i ==> anomalies[j].transactionId != id
      {
        if anomalies[i].transactionId == id {
          return true;
        }
      }
      found := false;
    }

    method CoalesceArchiveInstallments(setting: Setting, pairs: seq<Pair>, dryRun: bool) returns (r: Result<CoalesceCount, LedgerError>)
      requires Valid()
      modifies this
      ensures Valid()
      ensures match CoalescedLedger(old(State()), setting, pairs, dryRun)
              case Err(e) => r == Err(e) && State() == old(State())
              case Ok((after, count)) => r == Ok(count) && State() == after
    {
      var stored := Values();
      var checked := ValidateArchiveInstallmentPairs(setting, pairs, stored);
      if checked.Err? {
        return Err(checked.error);
      }
      var validated := checked.value;
      for i := 0 to |validated|
        invariant State() == old(State())
        invariant forall j :: 0 <= j < i ==> !HasPayment(payments, validated[j].1.id) && !HasAnomaly(anomalies, validated[j].1.id)
      {
        var paid := AnyPayment(validated[i].1.id);
        var logged := AnyAnomaly(validated[i].1.id);
        if paid || logged {
          assert Depended(anomalies, payments, validated);
          return Err(HasDependents);
        }
      }
      if !dryRun {
        WritePairs(validated);
      }
      r := Ok(CoalesceCount(|validated|, if dryRun then 0 else |validated|));
    }

    method WritePairs(validated: seq<(Row, Row)>)
      requires Valid()
      modifies this`transactions
      ensures Valid() && transactions == CoalesceRows(old(transactions), validated)
    {
      ghost var before := transactions;
      for i := 0 to |validated|
        invariant Valid()
        invariant CoalesceRows(before, validated) == CoalesceRows(transactions, validated[i..])
      {
        assert validated[i..][0] == validated[i] && validated[i..][1..] == validated[i + 1..];
        var (canonical, duplicate) := validated[i];
        transactions := transactions[canonical.id := Coalesced(canonical, duplicate)];
        transactions := transactions - {duplicate.id};
      }
    }

    method RecordAnomalies(items: seq<Anomaly>)
      modifies this`anomalies
      ensures State() == old(State()).(anomalies := old(anomalies) + items)
    {
      anomalies := anomalies + items;
    }

    /** Appended whether or not the transaction has a payment already. */
    method InsertSyntheticPayment(payment: Payment)
      modifies this`payments
      ensures State() == old(State()).(payments := old(payments) + [payment])
    {
      payments := payments + [payment];
    }
  }
}
