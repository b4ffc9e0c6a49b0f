/** Bank-ledger rows. Amounts are integer cents and timestamps integers. */
module LedgerRows {
  import opened Common

  datatype Status = Pending | Posted

  /** The archived purchase an imported row stands for. */
  datatype ArchiveRecord = ArchiveRecord(
    originRowId: string, accountId: string, amount: int, currency: string, description: string, purchaseDate: string)

  /**
   * The `archiveMigration` member of a raw record: absent or not recognised as an archive object; recognised
   * by origin and row id only; or complete evidence. `rest` stands for its remaining members.
   */
  datatype Archive =
    | NoArchive
    | Unrecognised(rest: string)
    | OriginOnly(originRowId: string, rest: string)
    | Evidence(originRowId: string, purchaseOrEventDate: string, sourceIdentifier: string, record: ArchiveRecord, rest: string)

  /** The members of a portal record the ledger looks at. */
  datatype Portal = Portal(
    date: Option<string>, processedDate: Option<string>, identifier: Option<string>, description: Option<string>,
    chargedAmount: Option<int>, installmentNumber: Option<int>, installmentTotal: Option<int>, rest: string)

  const EMPTY_PORTAL := Portal(None, None, None, None, None, None, None, "")

  /** Raw evidence: anything that is not an object, or an object with portal and archive members. */
  datatype Raw = NotObject(content: string) | Object(portal: Portal, archive: Archive)

  datatype Row = Row(
    id: string, accountId: string, company: string, identifier: Option<string>,
    bookedDate: string, chargeDate: Option<string>, amount: int, currency: string, description: string, memo: Option<string>,
    status: Status, postedSeenAt: Option<int>, installmentNumber: Option<int>, installmentTotal: Option<int>,
    originalAmount: Option<int>, originalCurrency: Option<string>, category: Option<string>, synthetic: bool,
    firstSeen: int, lastSeen: int, idSchemeVersion: int, raw: Raw)

  datatype Field = AmountField | BookedDateField | DescriptionField

  datatype Anomaly = Anomaly(transactionId: string, field: Field, previous: string, incoming: string, seenAt: int)

  datatype Summary = Summary(inserted: nat, updated: nat, same: nat, anomalies: seq<Anomaly>)

  const EMPTY_SUMMARY := Summary(0, 0, 0, [])

  datatype Pair = Pair(canonicalId: string, canonicalStateHash: string, duplicateId: string, duplicateStateHash: string)

  datatype LedgerError = AmbiguousArchive | DoublyClaimed | PairCount | PairsNotDistinct | PreStateChanged | HasDependents | PaymentExists

  /** A synthetic card payment the bridge put out. */
  datatype Payment = Payment(transactionId: string, accountId: string, chargeDate: string, amount: int, emittedAt: int)

  /** What a ledger holds. */
  datatype Ledger = Ledger(rows: map<string, Row>, anomalies: seq<Anomaly>, payments: seq<Payment>)

  datatype CoalesceCount = CoalesceCount(matched: nat, coalesced: nat)

  predicate HasAnomaly(anomalies: seq<Anomaly>, id: string) {
    exists i :: 0 <= i < |anomalies| && anomalies[i].transactionId == id
  }

  predicate HasPayment(payments: seq<Payment>, id: string) {
    exists i :: 0 <= i < |payments| && payments[i].transactionId == id
  }

  /** Some duplicate of a validated pair is referred to by a synthetic payment or an anomaly. */
  ghost predicate Depended(anomalies: seq<Anomaly>, payments: seq<Payment>, validated: seq<(Row, Row)>) {
    exists i :: 0 <= i < |validated| && (HasPayment(payments, validated[i].1.id) || HasAnomaly(anomalies, validated[i].1.id))
  }

  /** Time-zone conversion of a source date text, and the row fingerprint. */
  datatype Setting = Setting(calendarDate: string -> Option<string>, digest: Row -> string)

  ghost predicate WellKeyed(rows: map<string, Row>) {
    forall id :: id in rows ==> rows[id].id == id
  }

  ghost predicate DistinctIds(rows: seq<Row>) {
    forall i, j :: 0 <= i < j < |rows| ==> rows[i].id != rows[j].id
  }

  /** The map a list of rows makes when later rows replace earlier ones of the same id. */
  function ById(rows: seq<Row>): map<string, Row> {
    if rows == [] then map[] else ById(rows[..|rows| - 1])[rows[|rows| - 1].id := rows[|rows| - 1]]
  }

  lemma {:induction false} ByIdMembers(rows: seq<Row>)
    ensures WellKeyed(ById(rows))
    ensures forall id :: id in ById(rows) ==> ById(rows)[id] in rows
    ensures forall i :: 0 <= i < |rows| ==> rows[i].id in ById(rows)
    ensures DistinctIds(rows) ==> forall i :: 0 <= i < |rows| ==> ById(rows)[rows[i].id] == rows[i]
  {
    if rows != [] {
      ByIdMembers(rows[..|rows| - 1]);
    }
  }

  /** Fields no refresh may touch agree. */
  predicate SameFrozen(a: Row, b: Row) {
    a == b.(status := a.status, chargeDate := a.chargeDate, category := a.category, memo := a.memo,
            raw := a.raw, lastSeen := a.lastSeen, postedSeenAt := a.postedSeenAt)
  }
}
