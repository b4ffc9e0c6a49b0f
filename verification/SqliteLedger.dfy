/** The SQLite ledger: tables of nullable columns, changed inside all-or-nothing transactions. */
module SqliteLedger {
  import opened Common
  import opened LedgerRows
  import opened ArchiveInstallments
  import Money

  /** A row of the transactions table; absent optional fields are NULL. */
  datatype SqlRow = SqlRow(
    id: string, account_id: string, company: string, identifier: Option<string>,
    booked_date: string, charge_date: Option<string>, amount: int, currency: string, description: string, memo: Option<string>,
    status: Status, installment_number: Option<int>, installment_total: Option<int>,
    original_amount: Option<int>, original_currency: Option<string>, category: Option<string>, synthetic: int,
    first_seen: int, last_seen: int, id_scheme_version: int, raw: Raw, posted_seen_at: Option<int>)

  type Table = map<string, SqlRow>

  /** The three tables: transactions by primary key, the others in the order of their row ids. */
  datatype Tables = Tables(transactions: Table, anomalies: seq<Anomaly>, payments: seq<Payment>)

  function TransactionFromRow(row: SqlRow): Row {
    Row(row.id, row.account_id, row.company, row.identifier, row.booked_date, row.charge_date, row.amount, row.currency,
        row.description, row.memo, row.status, row.posted_seen_at, row.installment_number, row.installment_total,
        row.original_amount, row.original_currency, row.category, row.synthetic == 1,
        row.first_seen, row.last_seen, row.id_scheme_version, row.raw)
  }

  function InsertedRow(row: Row): SqlRow {
    SqlRow(row.id, row.accountId, row.company, row.identifier, row.bookedDate, row.chargeDate, row.amount, row.currency,
           row.description, row.memo, row.status, row.installmentNumber, row.installmentTotal,
           row.originalAmount, row.originalCurrency, row.category, if row.synthetic then 1 else 0,
           row.firstSeen, row.lastSeen, row.idSchemeVersion, row.raw, row.postedSeenAt)
  }

  ghost predicate ValidTable(table: Table) {
    forall id :: id in table ==> table[id].id == id
  }

  /** `transaction_id TEXT PRIMARY KEY`. */
  ghost predicate KeyedPayments(payments: seq<Payment>) {
    forall i, j :: 0 <= i < j < |payments| ==> payments[i].transactionId != payments[j].transactionId
  }

  function RowsOf(table: Table): map<string, Row> {
    map id | id in table :: TransactionFromRow(table[id])
  }

  /** `SELECT * FROM transactions WHERE company = 'visaCal'`. */
  function VisaCalRows(table: Table): map<string, Row> {
    map id | id in table && table[id].company == "visaCal" :: TransactionFromRow(table[id])
  }

  // ---------------------------------------------------------------- one row

  function Different(frozen: seq<(Field, string, string)>): seq<(Field, string, string)> {
    if frozen == [] then []
    else if frozen[0].1 != frozen[0].2 then [frozen[0]] + Different(frozen[1..])
    else Different(frozen[1..])
  }

  function FrozenFieldAnomalies(existing: Row, incoming: Row): seq<Anomaly> {
    var frozen := Different([
      (AmountField, Money.Format(existing.amount), Money.Format(incoming.amount)),
      (BookedDateField, existing.bookedDate, incoming.bookedDate),
      (DescriptionField, existing.description, incoming.description)]);
    seq(|frozen|, i requires 0 <= i < |frozen| => Anomaly(incoming.id, frozen[i].0, frozen[i].1, frozen[i].2, incoming.lastSeen))
  }

  /** `UPDATE transactions SET ... WHERE id = existing.id`, and whether anything visible changed. */
  function RefreshTransaction(table: Table, existing: Row, incoming: Row): (Table, bool) {
    var status := if existing.status.Pending? && incoming.status.Posted? then Posted else existing.status;
    var changed := status != existing.status || existing.chargeDate != incoming.chargeDate
      || existing.category != incoming.category || existing.memo != incoming.memo;
    var after :=
      if existing.id !in table then table
      else table[existing.id := table[existing.id].(
          status := status,
          charge_date := incoming.chargeDate.Or(existing.chargeDate),
          category := incoming.category.Or(existing.category),
          memo := incoming.memo.Or(existing.memo),
          raw := PreserveArchiveRaw(existing, incoming),
          last_seen := incoming.lastSeen,
          posted_seen_at := existing.postedSeenAt.Or(if status == existing.status then None else Some(incoming.lastSeen)))];
    (after, changed)
  }

  // ---------------------------------------------------------------- a batch

  datatype Progress = Progress(table: Table, summary: Summary)

  function Stored(table: Table, aliases: map<string, Row>, id: string): Option<Row> {
    if id in table then Some(TransactionFromRow(table[id])) else if id in aliases then Some(aliases[id]) else None
  }

  function RefreshRow(p: Progress, existing: Row, row: Row): Progress {
    var incoming := if existing.id == row.id then row else row.(id := existing.id, bookedDate := existing.bookedDate);
    var (table, changed) := RefreshTransaction(p.table, existing, row);
    var anomalies := p.summary.anomalies + FrozenFieldAnomalies(existing, incoming);
    Progress(table, if changed then p.summary.(anomalies := anomalies, updated := p.summary.updated + 1)
                    else p.summary.(anomalies := anomalies, same := p.summary.same + 1))
  }

  function UpsertRow(p: Progress, aliases: map<string, Row>, row: Row): Progress {
    match Stored(p.table, aliases, row.id)
    case None => Progress(p.table[row.id := InsertedRow(row)], p.summary.(inserted := p.summary.inserted + 1))
    case Some(existing) => RefreshRow(p, existing, row)
  }

  function UpsertRows(p: Progress, aliases: map<string, Row>, batch: seq<Row>): Progress
    decreases |batch|
  {
    if batch == [] then p else UpsertRows(UpsertRow(p, aliases, batch[0]), aliases, batch[1..])
  }

  ghost function Aliases(setting: Option<Setting>, table: Table, batch: seq<Row>): Result<map<string, Row>, LedgerError> {
    if setting.None? then Ok(map[]) else Resolve(setting.value, VisaCalRows(table), batch)
  }

  ghost function Upserted(t: Tables, setting: Option<Setting>, batch: seq<Row>): Result<(Tables, Summary), LedgerError> {
    match Aliases(setting, t.transactions, batch)
    case Err(e) => Err(e)
    case Ok(aliases) =>
      var p := UpsertRows(Progress(t.transactions, EMPTY_SUMMARY), aliases, batch);
      Ok((Tables(p.table, t.anomalies + p.summary.anomalies, t.payments), p.summary))
  }

  // ---------------------------------------------------------------- coalescing reviewed pairs

  function CoalesceRows(table: Table, validated: seq<(Row, Row)>): Table
    decreases |validated|
  {
    if validated == [] then table
    else CoalesceRows(RefreshTransaction(table, validated[0].0, validated[0].1).0 - {validated[0].1.id}, validated[1..])
  }

  ghost function CoalescedTables(t: Tables, setting: Setting, pairs: seq<Pair>, dryRun: bool): Result<(Tables, CoalesceCount), LedgerError> {
    match Validate(setting, VisaCalRows(t.transactions), pairs)
    case Err(e) => Err(e)
    case Ok(validated) =>
      if Depended(t.anomalies, t.payments, validated) then Err(HasDependents)
      else if dryRun then Ok((t, CoalesceCount(|validated|, 0)))
      else Ok((t.(transactions := CoalesceRows(t.transactions, validated)), CoalesceCount(|validated|, |validated|)))
  }

  function InsertedPayment(payments: seq<Payment>, payment: Payment): (seq<Payment>, Option<LedgerError>) {
    if HasPayment(payments, payment.transactionId) then (payments, Some(PaymentExists)) else (payments + [payment], None)
  }

  // ---------------------------------------------------------------- the ledger object

  class SqliteLedger {
    var transactions: Table
    var anomalies: seq<Anomaly>
    var payments: seq<Payment>

    function State(): Tables
      reads this
    {
      Tables(transactions, anomalies, payments)
    }

    ghost predicate Valid()
      reads this
    {
      ValidTable(transactions) && KeyedPayments(payments)
    }

    constructor ()
      ensures Valid() && State() == Tables(map[], [], [])
    {
      transactions, anomalies, payments := map[], [], [];
    }

    /** Undo everything since `BEGIN IMMEDIATE`. */
    method Rollback(saved: Tables)
      modifies this
      ensures State() == saved
    {
      transactions, anomalies, payments := saved.transactions, saved.anomalies, saved.payments;
    }

    method SelectVisaCal() returns (rows: seq<Row>)
      requires Valid()
      ensures DistinctIds(rows) && ById(rows) == VisaCalRows(transactions)
    {
      rows := [];
      var ids := transactions.Keys;
      while ids != {}
        invariant ids <= transactions.Keys
        invariant DistinctIds(rows)
        invariant ById(rows) == map id | id in transactions && id !in ids && transactions[id].company == "visaCal" :: TransactionFromRow(transactions[id])
        invariant forall i :: 0 <= i < |rows| ==> rows[i].id !in ids
        decreases |ids|
      {
        var id :| id in ids;
        if transactions[id].company == "visaCal" {
          var row := TransactionFromRow(transactions[id]);
          assert (rows + [row])[..|rows|] == rows;
          rows := rows + [row];
        }
        ids := ids - {id};
      }
    }

    method Refresh(existing: Row, incoming: Row) returns (changed: bool)
      modifies this`transactions
      ensures (transactions, changed) == RefreshTransaction(old(transactions), existing, incoming)
    {
      var (table, visible) := RefreshTransaction(transactions, existing, incoming);
      transactions := table;
      changed := visible;
    }

    /** Insert or refresh one row of a batch. */
    method WriteRow(aliases: map<string, Row>, row: Row, counted: Summary) returns (summary: Summary)
      requires Valid()
      modifies this`transactions
      ensures Valid()
      ensures Progress(transactions, summary) == UpsertRow(Progress(old(transactions), counted), aliases, row)
    {
      var stored := Stored(transactions, aliases, row.id);
      if stored.None? {
        transactions := transactions[row.id := InsertedRow(row)];
        summary := counted.(inserted := counted.inserted + 1);
      } else {
        var existing := stored.value;
        var incoming := if existing.id == row.id then row else row.(id := existing.id, bookedDate := existing.bookedDate);
        summary := counted.(anomalies := counted.anomalies + FrozenFieldAnomalies(existing, incoming));
        var changed := Refresh(existing, row);
        if changed {
          summary := summary.(updated := summary.updated + 1);
        } else {
          summary := summary.(same := summary.same + 1);
        }
      }
    }

    method WriteRows(aliases: map<string, Row>, batch: seq<Row>) returns (summary: Summary)
      requires Valid()
      modifies this`transactions
      ensures Valid()
      ensures Progress(transactions, summary) == UpsertRows(Progress(old(transactions), EMPTY_SUMMARY), aliases, batch)
    {
      summary := EMPTY_SUMMARY;
      for i := 0 to |batch|
        invariant Valid()
        invariant UpsertRows(Progress(old(transactions), EMPTY_SUMMARY), aliases, batch)
                  == UpsertRows(Progress(transactions, summary), aliases, batch[i..])
      {
        assert batch[i..][0] == batch[i] && batch[i..][1..] == batch[i + 1..];
        summary := WriteRow(aliases, batch[i], summary);
      }
    }

    method UpsertTransactions(setting: Option<Setting>, batch: seq<Row>) returns (r: Result<Summary, LedgerError>)
      requires Valid()
      modifies this
      ensures Valid()
      ensures match Upserted(old(State()), setting, batch)
              case Err(e) => r == Err(e) && State() == old(State())
              case Ok((after, summary)) => r == Ok(summary) && State() == after
    {
      var saved := State();
      var aliases: map<string, Row> := map[];
      if setting.Some? {
        var stored := SelectVisaCal();
        var resolved := ResolveArchiveInstallments(setting.value, batch, stored);
        if resolved.Err? {
          Rollback(saved);
          return Err(resolved.error);
        }
        aliases := resolved.value;
      }
      var summary := WriteRows(aliases, batch);
      RecordAnomalies(summary.anomalies);
      r := Ok(summary);
    }

    method AnyAnomaly(id: string) returns (found: bool)
      ensures found <==> HasAnomaly(anomalies, id)
    {
      for i := 0 to |anomalies|
        invariant forall j :: 0 <= j < i ==> anomalies[j].transactionId != id
      {
        if anomalies[i].transactionId == id {
          return true;
        }
      }
      found := false;
    }

    method AnyDependent(validated: seq<(Row, Row)>) returns (found: bool)
      ensures found <==> Depended(anomalies, payments, validated)
    {
      for i := 0 to |validated|
        invariant forall j :: 0 <= j < i ==> !HasPayment(payments, validated[j].1.id) && !HasAnomaly(anomalies, validated[j].1.id)
      {
        var logged := AnyAnomaly(validated[i].1.id);
        if HasPayment(payments, validated[i].1.id) || logged {
          return true;
        }
      }
      found := false;
    }

    method WritePairs(validated: seq<(Row, Row)>)
      requires Valid()
      modifies this`transactions
      ensures Valid() && transactions == CoalesceRows(old(transactions), validated)
    {
      for i := 0 to |validated|
        invariant Valid()
        invariant CoalesceRows(old(transactions), validated) == CoalesceRows(transactions, validated[i..])
      {
        assert validated[i..][0] == validated[i] && validated[i..][1..] == validated[i + 1..];
        var _ := Refresh(validated[i].0, validated[i].1);
        transactions := transactions - {validated[i].1.id};
      }
    }

    method CoalesceArchiveInstallments(setting: Setting, pairs: seq<Pair>, dryRun: bool) returns (r: Result<CoalesceCount, LedgerError>)
      requires Valid()
      modifies this
      ensures Valid()
      ensures match CoalescedTables(old(State()), setting, pairs, dryRun)
              case Err(e) => r == Err(e) && State() == old(State())
              case Ok((after, count)) => r == Ok(count) && State() == after
    {
      var saved := State();
      var stored := SelectVisaCal();
      var checked := ValidateArchiveInstallmentPairs(setting, pairs, stored);
      if checked.Err? {
        Rollback(saved);
        return Err(checked.error);
      }
      var found := AnyDependent(checked.value);
      if found {
        Rollback(saved);
        return Err(HasDependents);
      }
      if !dryRun {
        WritePairs(checked.value);
      }
      r := Ok(CoalesceCount(|checked.value|, if dryRun then 0 else |checked.value|));
    }

    method RecordAnomalies(items: seq<Anomaly>)
      modifies this`anomalies
      ensures anomalies == old(anomalies) + items
    {
      var start := anomalies;
      for i := 0 to |items|
        invariant anomalies == start + items[..i]
      {
        anomalies := anomalies + [items[i]];
      }
    }

    /** A plain INSERT: refused by the primary key when the transaction has a payment already. */
    method InsertSyntheticPayment(payment: Payment) returns (refused: Option<LedgerError>)
      requires Valid()
      modifies this`payments
      ensures Valid()
      ensures (payments, refused) == InsertedPayment(old(payments), payment)
    {
      if HasPayment(payments, payment.transactionId) {
        return Some(PaymentExists);
      }
      payments := payments + [payment];
      refused := None;
    }
  }
}
