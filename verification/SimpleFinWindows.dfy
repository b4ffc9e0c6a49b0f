/** Which rows a dated request is served. Epochs are seconds, seen instants are milliseconds,
    calendar dates are day numbers counted from 1970-01-01, and ids stand for their place in the id order. */
module SimpleFinWindows {
  import opened Common
  import opened Sorting

  const DAY := 86_400
  const NOON := 43_200

  function PostedEpoch(day: int): int {
    DAY * day + NOON
  }

  /** Rounding a quotient up, as `Math.ceil` does. */
  function CeilDiv(a: int, b: int): int
    requires b > 0
  {
    -((-a) / b)
  }

  /** Lower and, exclusively, upper date bound of a window. */
  function WindowDate(epoch: int): int {
    CeilDiv(epoch - NOON, DAY)
  }

  datatype Row = Row(id: int, pending: bool, firstSeen: int, postedSeenAt: Option<int>, lastSeen: int, day: int)

  datatype Query = Query(startDate: Option<int>, endDate: Option<int>, pending: bool, balancesOnly: bool)

  /** The account's last scrape, and whether its company serves pending rows. */
  datatype Account = Account(lastSeen: int, includePending: bool)

  predicate SeenIn(seen: Option<int>, q: Query) {
    && seen.Some? && q.startDate.Some? && seen.value >= 1000 * q.startDate.value
    && (q.endDate.Some? ==> seen.value < 1000 * q.endDate.value)
  }

  predicate FirstSeenInWindow(row: Row, q: Query) {
    SeenIn(Some(row.firstSeen), q) || SeenIn(row.postedSeenAt, q)
  }

  predicate IsCurrentPending(row: Row, account: Account) {
    !row.pending || row.lastSeen >= account.lastSeen
  }

  predicate BelowEnd(day: int, q: Query) {
    q.endDate.Some? ==> day < WindowDate(q.endDate.value)
  }

  predicate FromStart(day: int, q: Query) {
    q.startDate.Some? ==> day >= WindowDate(q.startDate.value)
  }

  predicate Served(row: Row, q: Query, account: Account) {
    && !q.balancesOnly && (q.startDate.Some? || q.endDate.Some?)
    && (row.pending ==> q.pending && account.includePending)
    && IsCurrentPending(row, account)
    && BelowEnd(row.day, q) && (FromStart(row.day, q) || FirstSeenInWindow(row, q))
  }

  /** Rows by date, then id; the remaining fields only make the order total. */
  predicate Precedes(a: Row, b: Row) {
    a.day < b.day || (a.day == b.day && a.id <= b.id)
  }

  function Filtered(rows: seq<Row>, q: Query, account: Account): seq<Row> {
    if rows == [] then [] else (if Served(rows[0], q, account) then [rows[0]] else []) + Filtered(rows[1..], q, account)
  }

  /** A place for a row among rows already in order, after those that precede it. */
  function Place(row: Row, sorted: seq<Row>): (k: nat)
    ensures k <= |sorted|
  {
    if sorted == [] || !Precedes(sorted[0], row) then 0 else 1 + Place(row, sorted[1..])
  }

  ghost predicate InOrder(rows: seq<Row>) {
    forall i, j :: 0 <= i < j < |rows| ==> Precedes(rows[i], rows[j])
  }

  function Placed(row: Row, sorted: seq<Row>): (r: seq<Row>)
    ensures multiset(r) == multiset(sorted) + multiset{row}
  {
    var k := Place(row, sorted);
    assert sorted == sorted[..k] + sorted[k..];
    sorted[..k] + [row] + sorted[k..]
  }

  lemma {:induction false} PlaceSplits(row: Row, sorted: seq<Row>)
    requires InOrder(sorted)
    ensures var k := Place(row, sorted);
      (forall i :: 0 <= i < k ==> Precedes(sorted[i], row)) && (forall i :: k <= i < |sorted| ==> Precedes(row, sorted[i]))
  {
    if sorted != [] && Precedes(sorted[0], row) {
      PlaceSplits(row, sorted[1..]);
      var k := Place(row, sorted);
      forall i | 0 <= i < k ensures Precedes(sorted[i], row) {
        if i > 0 { assert sorted[i] == sorted[1..][i - 1]; }
      }
      forall i | k <= i < |sorted| ensures Precedes(row, sorted[i]) {
        assert sorted[i] == sorted[1..][i - 1];
      }
    }
  }

  lemma EmptyInOrder()
    ensures InOrder([])
  {
  }

  lemma PlacedInOrder(row: Row, sorted: seq<Row>)
    requires InOrder(sorted)
    ensures InOrder(Placed(row, sorted))
  {
    PlaceSplits(row, sorted);
  }

  lemma FilteredStep(rows: seq<Row>, i: nat, served: seq<Row>, q: Query, account: Account)
    requires i < |rows|
    ensures var next := if Served(rows[i], q, account) then Placed(rows[i], served) else served;
      multiset(served) + multiset(Filtered(rows[i..], q, account)) == multiset(next) + multiset(Filtered(rows[i + 1..], q, account))
  {
    hide Served, Placed;
    assert rows[i..][0] == rows[i] && rows[i..][1..] == rows[i + 1..];
  }

  /** The rows served for one account: exactly the served ones, each as often as it is stored, by date and id. */
  method TransactionsFor(rows: seq<Row>, q: Query, account: Account) returns (served: seq<Row>)
    ensures multiset(served) == multiset(Filtered(rows, q, account)) && InOrder(served)
    ensures forall row :: row in served <==> row in rows && Served(row, q, account)
  {
    hide Served, Placed, InOrder;
    served := [];
    EmptyInOrder();
    var i := 0;
    while i < |rows|
      invariant 0 <= i <= |rows| && InOrder(served)
      invariant multiset(served) + multiset(Filtered(rows[i..], q, account)) == multiset(Filtered(rows, q, account))
    {
      FilteredStep(rows, i, served, q, account);
      if Served(rows[i], q, account) {
        PlacedInOrder(rows[i], served);
        served := Placed(rows[i], served);
      }
      i := i + 1;
    }
    FilteredHolds(rows, q, account);
    forall row ensures row in served <==> row in rows && Served(row, q, account) {
      InMultiset(served, row);
      InMultiset(Filtered(rows, q, account), row);
    }
  }

  lemma {:induction false} FilteredHolds(rows: seq<Row>, q: Query, account: Account)
    ensures forall row :: row in Filtered(rows, q, account) <==> row in rows && Served(row, q, account)
  {
    if rows != [] {
      FilteredHolds(rows[1..], q, account);
      assert rows == [rows[0]] + rows[1..];
    }
  }

  // ---------------------------------------------------------------- bounds

  /** The lower bound is the first date whose noon is not before the epoch. */
  lemma WindowDateIsLeast(epoch: int, day: int)
    ensures WindowDate(epoch) <= day <==> epoch <= PostedEpoch(day)
  {
    var a := epoch - NOON;
    var q := (-a) / DAY;
    assert -a == DAY * q + (-a) % DAY;
    if WindowDate(epoch) <= day {
      assert -q <= day;
    } else {
      assert -q >= day + 1;
    }
  }

  /** The date bounds select exactly the dates whose posted epoch is in the half-open epoch window. */
  lemma DatesMatchEpochs(day: int, startEpoch: int, endEpoch: int)
    ensures WindowDate(startEpoch) <= day < WindowDate(endEpoch) <==> startEpoch <= PostedEpoch(day) < endEpoch
  {
    WindowDateIsLeast(startEpoch, day);
    WindowDateIsLeast(endEpoch, day);
  }

  /** A bound that is itself a posted epoch is that date: `posted` values round-trip. */
  lemma PostedRoundTrip(day: int)
    ensures WindowDate(PostedEpoch(day)) == day
  {
    WindowDateIsLeast(PostedEpoch(day), day);
    WindowDateIsLeast(PostedEpoch(day), day - 1);
  }

  lemma WindowDateMonotone(a: int, b: int)
    requires a <= b
    ensures WindowDate(a) <= WindowDate(b)
  {
    WindowDateIsLeast(a, WindowDate(b));
    WindowDateIsLeast(b, WindowDate(b));
  }
}
