/** Stored rows as a dated request sees them, over runs of the ledger. */
module SimpleFinLedger {
  import opened Common
  import opened LedgerRows
  import opened ArchiveInstallments
  import opened MemoryLedger
  import opened LedgerHistory
  import Windows = SimpleFinWindows
  import opened SimpleFinDelivery

  /**
   * How an account's rows are read: whether it is a credit card, the date an archive record stands for, the time-zone
   * conversion, and the places of dates and ids in their orders.
   */
  datatype Reading = Reading(
    creditCard: bool, archivedDate: Archive -> Option<string>, setting: Setting, dayOf: string -> int, rank: string -> int)

  /** The row's date rests on its booking date alone. */
  predicate DatedByBooking(x: Reading, row: Row) {
    !x.creditCard || row.synthetic
  }

  /** A card row is dated by its portal's purchase date, else by its archive record, else by its booking date. */
  function DateText(x: Reading, row: Row): string {
    if DatedByBooking(x, row) then row.bookedDate
    else OccurrenceDate(x.setting, PortalOf(row.raw).date).Or(x.archivedDate(ArchiveOf(row.raw))).GetOr(row.bookedDate)
  }

  /** The row as `SimpleFinWindows` selects it. */
  function Shown(x: Reading, row: Row): Windows.Row {
    Windows.Row(x.rank(row.id), row.status.Pending?, row.firstSeen, row.postedSeenAt, row.lastSeen, x.dayOf(DateText(x, row)))
  }

  function LifeOf(x: Reading, row: Row, visibleAt: int): Life {
    Life(x.rank(row.id), visibleAt, row.firstSeen, row.postedSeenAt, x.dayOf(DateText(x, row)))
  }

  /** The portal's purchase date, and any archive record, say the same. */
  predicate SameEvidence(x: Reading, a: Row, b: Row) {
    && OccurrenceDate(x.setting, PortalOf(a.raw).date) == OccurrenceDate(x.setting, PortalOf(b.raw).date)
    && (Recognised(ArchiveOf(a.raw)) || x.archivedDate(ArchiveOf(a.raw)) == x.archivedDate(ArchiveOf(b.raw)))
  }

  lemma ShownWhenEvolved(x: Reading, a: Row, b: Row, visibleAt: int)
    requires Evolves(a, b) && a.status.Posted? && (DatedByBooking(x, a) || SameEvidence(x, a, b))
    ensures Shown(x, b) == PostedRow(LifeOf(x, a, visibleAt), b.lastSeen)
  {
    if DatedByBooking(x, a) {
      assert DateText(x, b) == DateText(x, a);
    } else {
      hide OccurrenceDate;
      assert x.archivedDate(ArchiveOf(a.raw)) == x.archivedDate(ArchiveOf(b.raw));
    }
  }

  /** Over any run a posted row is shown as it was, only seen later, unless a card's portal evidence changes its date. */
  lemma ShownOverRuns(x: Reading, l: Ledger, us: seq<Upsert>, id: string, visibleAt: int)
    requires WellKeyed(l.rows) && DistinctBatches(us) && id in l.rows && l.rows[id].status.Posted?
    ensures id in AfterUpserts(l, us).rows
    ensures var row := AfterUpserts(l, us).rows[id];
            DatedByBooking(x, l.rows[id]) || SameEvidence(x, l.rows[id], row) ==>
              Shown(x, row) == PostedRow(LifeOf(x, l.rows[id], visibleAt), row.lastSeen)
  {
    FrozenOverRuns(l, us);
    hide AfterUpserts, Evolves, DatedByBooking, SameEvidence, Shown, LifeOf;
    var row := AfterUpserts(l, us).rows[id];
    if DatedByBooking(x, l.rows[id]) || SameEvidence(x, l.rows[id], row) {
      ShownWhenEvolved(x, l.rows[id], row, visibleAt);
    }
  }

  // ---------------------------------------------------------------- recorded instants

  /** Nothing about the row was recorded after `now`. */
  predicate RecordedBy(row: Row, now: int) {
    row.firstSeen <= now && (row.postedSeenAt.Some? ==> row.postedSeenAt.value <= now)
  }

  ghost predicate AllRecordedBy(rows: map<string, Row>, now: int) {
    forall id :: id in rows ==> RecordedBy(rows[id], now)
  }

  ghost predicate BroughtBy(batch: seq<Row>, now: int) {
    forall i :: 0 <= i < |batch| ==> RecordedBy(batch[i], now) && batch[i].lastSeen <= now
  }

  /** An upsert of rows scraped no later than now records nothing later. */
  lemma UpsertRecords(l: Ledger, u: Upsert, now: int)
    requires WellKeyed(l.rows) && DistinctIds(u.batch) && AllRecordedBy(l.rows, now) && BroughtBy(u.batch, now)
    ensures WellKeyed(AfterUpsert(l, u).rows) && AllRecordedBy(AfterUpsert(l, u).rows, now)
  {
    if Upserted(l, u.setting, u.batch).Ok? {
      BatchEvolves(l, u.setting, u.batch);
      NewRowsAreFromBatch(l, u.setting, u.batch);
      var after := Upserted(l, u.setting, u.batch).value.0.rows;
      hide Upserted, PostedBy;
      forall id | id in after
        ensures RecordedBy(after[id], now)
      {
        if id in l.rows {
          assert Evolves(l.rows[id], after[id]);
          PostedInTime(l.rows, u, after, id, now);
        }
      }
    }
  }

  lemma PostedInTime(rows: map<string, Row>, u: Upsert, after: map<string, Row>, id: string, now: int)
    requires id in rows && id in after && Evolves(rows[id], after[id]) && RecordedBy(rows[id], now) && BroughtBy(u.batch, now)
    requires rows[id].status.Pending? && rows[id].postedSeenAt.None? ==>
               forall time :: after[id].postedSeenAt == Some(time) <==> PostedBy(u.setting, rows, u.batch, id, time)
    ensures RecordedBy(after[id], now)
  {
    if rows[id].postedSeenAt.None? && after[id].postedSeenAt.Some? {
      assert PostedBy(u.setting, rows, u.batch, id, after[id].postedSeenAt.value);
    }
  }

  /** An upsert at an instant. */
  datatype Scrape = Scrape(upsert: Upsert, at: int)

  ghost function AfterScrapes(l: Ledger, scrapes: seq<Scrape>): Ledger
    decreases |scrapes|
  {
    if scrapes == [] then l else AfterScrapes(AfterUpsert(l, scrapes[0].upsert), scrapes[1..])
  }

  /** Scrapes in time order from `start` to `end`, each bringing what was seen by then. */
  ghost predicate InTime(scrapes: seq<Scrape>, start: int, end: int) {
    && start <= end && (forall i :: 0 <= i < |scrapes| ==> start <= scrapes[i].at <= end)
    && (forall i, j :: 0 <= i < j < |scrapes| ==> scrapes[i].at <= scrapes[j].at)
    && (forall i :: 0 <= i < |scrapes| ==> DistinctIds(scrapes[i].upsert.batch) && BroughtBy(scrapes[i].upsert.batch, scrapes[i].at))
  }

  lemma RecordedLater(rows: map<string, Row>, start: int, end: int)
    requires AllRecordedBy(rows, start) && start <= end
    ensures AllRecordedBy(rows, end)
  {
  }

  /** Over any run of scrapes, what the ledger has recorded about its rows lies in the past. */
  lemma {:induction false} AllRecorded(l: Ledger, scrapes: seq<Scrape>, start: int, end: int)
    requires WellKeyed(l.rows) && AllRecordedBy(l.rows, start) && InTime(scrapes, start, end)
    ensures WellKeyed(AfterScrapes(l, scrapes).rows) && AllRecordedBy(AfterScrapes(l, scrapes).rows, end)
    decreases |scrapes|
  {
    if scrapes == [] {
      RecordedLater(l.rows, start, end);
    } else {
      var now := scrapes[0].at;
      RecordedLater(l.rows, start, now);
      UpsertRecords(l, scrapes[0].upsert, now);
      hide AllRecordedBy, WellKeyed, AfterUpsert, BroughtBy;
      AllRecorded(AfterUpsert(l, scrapes[0].upsert), scrapes[1..], now, end);
    }
  }

  // ---------------------------------------------------------------- delivery from the ledger

  /**
   * A row stored as posted by the instant `visibleAt` is served, from whatever ledger the later scrapes leave, by the
   * first sync due for it, if the first sync that could see it reached back to when it was seen.
   */
  lemma StoredRowDelivered(x: Reading, l: Ledger, scrapes: seq<Scrape>, start: int, visibleAt: int, later: seq<Upsert>, id: string,
                           syncs: seq<Sync>, first: nat, account: Windows.Account)
    requires WellKeyed(l.rows) && AllRecordedBy(l.rows, start) && InTime(scrapes, start, visibleAt) && DistinctBatches(later)
    requires var stored := AfterScrapes(l, scrapes).rows;
             && id in stored && stored[id].status.Posted?
             && id in AfterUpserts(AfterScrapes(l, scrapes), later).rows
             && (DatedByBooking(x, stored[id]) || SameEvidence(x, stored[id], AfterUpserts(AfterScrapes(l, scrapes), later).rows[id]))
    requires var life := LifeOf(x, AfterScrapes(l, scrapes).rows[id], visibleAt);
             && WellSynced(syncs) && FirstSync(life, syncs, first) && SeenSince(life, syncs[first])
             && exists j :: first <= j < |syncs| && Due(life, syncs[j])
    ensures var life := LifeOf(x, AfterScrapes(l, scrapes).rows[id], visibleAt);
            Windows.Served(Shown(x, AfterUpserts(AfterScrapes(l, scrapes), later).rows[id]), QueryOf(syncs[FirstDue(life, syncs, first)]), account)
  {
    AllRecorded(l, scrapes, start, visibleAt);
    var stored := AfterScrapes(l, scrapes);
    var life := LifeOf(x, stored.rows[id], visibleAt);
    assert RecordedBy(stored.rows[id], visibleAt);
    assert Recorded(life);
    ShownOverRuns(x, stored, later, id, visibleAt);
    hide AfterScrapes, AfterUpserts, AllRecordedBy, InTime, WellKeyed, Shown, Windows.Served, SameEvidence, DatedByBooking;
    ServedWhenDue(life, syncs, first, account, AfterUpserts(stored, later).rows[id].lastSeen);
  }
}
