/** What a consumer that syncs again and again is delivered. */
module SimpleFinDelivery {
  import opened Common
  import opened SimpleFinWindows

  /** A sync at an instant (milliseconds) asks for one window; without an end it is open. */
  datatype Sync = Sync(at: int, start: int, end: Option<int>)

  function QueryOf(s: Sync): Query {
    Query(Some(s.start), s.end, true, false)
  }

  /** A row's life from the instant it is stored as posted: its recorded instants and its date, which stays fixed. */
  datatype Life = Life(id: int, visibleAt: int, firstSeen: int, postedSeenAt: Option<int>, day: int)

  /** The stored row once it is posted; being seen again changes only `lastSeen`. */
  function PostedRow(l: Life, lastSeen: int): Row {
    Row(l.id, false, l.firstSeen, l.postedSeenAt, lastSeen, l.day)
  }

  predicate ServedAt(l: Life, s: Sync, account: Account, lastSeen: int) {
    Served(PostedRow(l, lastSeen), QueryOf(s), account)
  }

  /** Syncs in time order, each window ending after its sync, none leaving a gap to the one before. */
  ghost predicate WellSynced(syncs: seq<Sync>) {
    && (forall k :: 0 <= k < |syncs| && syncs[k].end.Some? ==> syncs[k].at < 1000 * syncs[k].end.value)
    && (forall j, k :: 0 <= j < k < |syncs| ==> syncs[j].at <= syncs[k].at)
    && (forall j, k :: 0 <= j && j + 1 == k < |syncs| ==> syncs[j].end.Some? ==> syncs[k].start <= syncs[j].end.value)
  }

  /** No window starts before an earlier one does. */
  ghost predicate Advancing(syncs: seq<Sync>) {
    forall j, k :: 0 <= j < k < |syncs| ==> syncs[j].start <= syncs[k].start
  }

  /** What was recorded about a row happened before it was visible. */
  predicate Recorded(l: Life) {
    l.firstSeen <= l.visibleAt && (l.postedSeenAt.Some? ==> l.postedSeenAt.value <= l.visibleAt)
  }

  /** The first sync that can see the row as posted. */
  ghost predicate FirstSync(l: Life, syncs: seq<Sync>, k: nat) {
    k < |syncs| && l.visibleAt <= syncs[k].at && forall j :: 0 <= j < k ==> syncs[j].at < l.visibleAt
  }

  /** The window of that sync reaches back to an instant at which the row was first seen or first seen posted. */
  predicate SeenSince(l: Life, s: Sync) {
    l.firstSeen >= 1000 * s.start || (l.postedSeenAt.Some? && l.postedSeenAt.value >= 1000 * s.start)
  }

  lemma SeenSinceMeansInWindow(l: Life, s: Sync, lastSeen: int)
    requires Recorded(l) && l.visibleAt <= s.at && (s.end.Some? ==> s.at < 1000 * s.end.value)
    ensures FirstSeenInWindow(PostedRow(l, lastSeen), QueryOf(s)) <==> SeenSince(l, s)
  {
  }

  /** The row's date is below the end of the window. */
  predicate Due(l: Life, s: Sync) {
    BelowEnd(l.day, QueryOf(s))
  }

  /** The date lower bound of a window is not above the upper bound of the window before. */
  lemma NoDateGap(syncs: seq<Sync>, k: nat, l: Life)
    requires WellSynced(syncs) && 0 < k < |syncs| && !Due(l, syncs[k - 1])
    ensures FromStart(l.day, QueryOf(syncs[k]))
  {
    var j := k - 1;
    assert j + 1 == k;
    WindowDateMonotone(syncs[k].start, syncs[j].end.value);
  }

  /** The first due sync from number `first` on. */
  ghost function FirstDue(l: Life, syncs: seq<Sync>, first: nat): (k: nat)
    requires exists j :: first <= j < |syncs| && Due(l, syncs[j])
    ensures first <= k < |syncs| && Due(l, syncs[k]) && forall j :: first <= j < k ==> !Due(l, syncs[j])
    decreases |syncs| - first
  {
    if Due(l, syncs[first]) then first else FirstDue(l, syncs, first + 1)
  }

  /** A posted row that some sync is due for is served at the first such sync, if the first sync that could see it reached back
      to the row: by its date, or by an instant at which it was seen. */
  lemma ServedWhenDue(l: Life, syncs: seq<Sync>, first: nat, account: Account, lastSeen: int)
    requires WellSynced(syncs) && Recorded(l) && FirstSync(l, syncs, first)
    requires exists j :: first <= j < |syncs| && Due(l, syncs[j])
    requires FromStart(l.day, QueryOf(syncs[first])) || SeenSince(l, syncs[first])
    ensures ServedAt(l, syncs[FirstDue(l, syncs, first)], account, lastSeen)
  {
    var k := FirstDue(l, syncs, first);
    if k == first {
      SeenSinceMeansInWindow(l, syncs[k], lastSeen);
    } else {
      NoDateGap(syncs, k, l);
    }
  }

  /** Otherwise no sync ever serves it: later windows start no earlier. */
  lemma NeverServed(l: Life, syncs: seq<Sync>, first: nat, k: nat, account: Account, lastSeen: int)
    requires WellSynced(syncs) && Advancing(syncs) && Recorded(l) && FirstSync(l, syncs, first) && first <= k < |syncs|
    requires !FromStart(l.day, QueryOf(syncs[first])) && !SeenSince(l, syncs[first])
    ensures !ServedAt(l, syncs[k], account, lastSeen)
  {
    assert syncs[first].start <= syncs[k].start;
    WindowDateMonotone(syncs[first].start, syncs[k].start);
    assert syncs[first].at <= syncs[k].at;
    SeenSinceMeansInWindow(l, syncs[k], lastSeen);
  }

  /** A posted row is delivered by some sync exactly when a sync is due for it and the first sync that could see it reached back to it. */
  lemma DeliveredExactly(l: Life, syncs: seq<Sync>, first: nat, account: Account, lastSeen: int)
    requires WellSynced(syncs) && Advancing(syncs) && Recorded(l) && FirstSync(l, syncs, first)
    ensures (exists k :: first <= k < |syncs| && ServedAt(l, syncs[k], account, lastSeen)) <==>
              (exists k :: first <= k < |syncs| && Due(l, syncs[k]))
              && (FromStart(l.day, QueryOf(syncs[first])) || SeenSince(l, syncs[first]))
  {
    if k :| first <= k < |syncs| && ServedAt(l, syncs[k], account, lastSeen) {
      assert Due(l, syncs[k]);
      if !FromStart(l.day, QueryOf(syncs[first])) && !SeenSince(l, syncs[first]) {
        NeverServed(l, syncs, first, k, account, lastSeen);
      }
    }
    if (exists k :: first <= k < |syncs| && Due(l, syncs[k])) && (FromStart(l.day, QueryOf(syncs[first])) || SeenSince(l, syncs[first])) {
      ServedWhenDue(l, syncs, first, account, lastSeen);
    }
  }

  /** Every window reaches back to all that was recorded since the sync before. */
  ghost predicate CoversArrivals(lives: set<Life>, syncs: seq<Sync>) {
    forall l, k: nat :: l in lives && FirstSync(l, syncs, k) ==> SeenSince(l, syncs[k])
  }

  /** Then every row is served as soon as a window ends after its date, however late it arrived. */
  lemma EverythingDelivered(lives: set<Life>, syncs: seq<Sync>, account: Account, l: Life, first: nat, lastSeen: int)
    requires WellSynced(syncs) && CoversArrivals(lives, syncs) && l in lives && Recorded(l)
    requires FirstSync(l, syncs, first) && exists j :: first <= j < |syncs| && Due(l, syncs[j])
    ensures ServedAt(l, syncs[FirstDue(l, syncs, first)], account, lastSeen)
  {
    ServedWhenDue(l, syncs, first, account, lastSeen);
  }

  /** A row dated at or after a window's end stays out of it, however recently it was seen. */
  lemma FutureRowsWait(row: Row, q: Query, account: Account)
    requires q.endDate.Some? && PostedEpoch(row.day) >= q.endDate.value
    ensures !Served(row, q, account)
  {
    WindowDateIsLeast(q.endDate.value, row.day);
  }
}
