/** What one batch upsert does to a ledger's rows: independence of order, and what repeating it changes. */
module LedgerBatches {
  import opened Common
  import opened LedgerRows
  import opened ArchiveInstallments
  import opened MemoryLedger
  import opened LedgerCoalescing

  /** The stored row an incoming row stands for, when that is unambiguous. */
  ghost function Own(setting: Setting, rows: map<string, Row>, row: Row): Option<Row> {
    match Canonical(setting, rows, row)
    case Ok(found) => found
    case Err(_) => None
  }

  /** The id of the row an incoming row writes. */
  ghost function Target(setting: Setting, rows: map<string, Row>, row: Row): string {
    match Own(setting, rows, row)
    case Some(stored) => stored.id
    case None => row.id
  }

  /** The row it leaves there. */
  ghost function Written(setting: Setting, rows: map<string, Row>, row: Row): Row {
    match Own(setting, rows, row)
    case Some(stored) => Refreshed(stored, row)
    case None => row
  }

  /** No row from the `k`-th on matches more than one archived installment. */
  ghost predicate Unambiguous(setting: Setting, rows: map<string, Row>, batch: seq<Row>, k: nat) {
    forall i :: k <= i < |batch| ==> Canonical(setting, rows, batch[i]).Ok?
  }

  /** No two rows of the batch write the same row. */
  ghost predicate Injective(setting: Setting, rows: map<string, Row>, batch: seq<Row>) {
    forall i, j :: 0 <= i < |batch| && 0 <= j < |batch| && i != j ==>
      Target(setting, rows, batch[i]) != Target(setting, rows, batch[j])
  }

  lemma OwnMeans(setting: Setting, rows: map<string, Row>, row: Row)
    requires WellKeyed(rows)
    ensures match Own(setting, rows, row)
            case Some(c) => c.id in rows && rows[c.id] == c && (c.id == row.id || (row.id !in rows && Matches(setting, c, row)))
            case None => row.id !in rows
  {
    FindMeans(setting, rows, row);
  }

  // ================================================================ when a batch is accepted

  /** The first `k` rows' aliases and claims, and nothing else. */
  ghost predicate Recorded(setting: Setting, rows: map<string, Row>, batch: seq<Row>, k: nat,
                           resolved: map<string, Row>, claimed: map<string, string>)
    requires k <= |batch|
  {
    && RecordedRows(setting, rows, batch, k, resolved, claimed)
    && RecordedIds(batch, k, resolved)
    && RecordedClaims(setting, rows, batch, k, claimed)
  }

  ghost predicate RecordedRows(setting: Setting, rows: map<string, Row>, batch: seq<Row>, k: nat,
                               resolved: map<string, Row>, claimed: map<string, string>)
    requires k <= |batch|
  {
    forall i :: 0 <= i < k ==>
      match Own(setting, rows, batch[i])
      case Some(c) => batch[i].id in resolved && resolved[batch[i].id] == c && c.id in claimed && claimed[c.id] == batch[i].id
      case None => batch[i].id !in resolved
  }

  ghost predicate RecordedIds(batch: seq<Row>, k: nat, resolved: map<string, Row>)
    requires k <= |batch|
  {
    forall id :: id in resolved ==> exists i :: 0 <= i < k && batch[i].id == id
  }

  ghost predicate Claims(setting: Setting, rows: map<string, Row>, row: Row, id: string) {
    Own(setting, rows, row).Some? && Own(setting, rows, row).value.id == id
  }

  ghost predicate RecordedClaims(setting: Setting, rows: map<string, Row>, batch: seq<Row>, k: nat, claimed: map<string, string>)
    requires k <= |batch|
  {
    forall id :: id in claimed ==> exists i :: 0 <= i < k && Claims(setting, rows, batch[i], id)
  }

  lemma RecordedLater(setting: Setting, rows: map<string, Row>, batch: seq<Row>, k: nat, resolved: map<string, Row>, claimed: map<string, string>)
    requires k < |batch| && RecordedIds(batch, k, resolved) && RecordedClaims(setting, rows, batch, k, claimed)
    ensures RecordedIds(batch, k + 1, resolved) && RecordedClaims(setting, rows, batch, k + 1, claimed)
    ensures DistinctIds(batch) ==> batch[k].id !in resolved
  {
    hide Claims;
    assert DistinctIds(batch) ==> forall i :: 0 <= i < k ==> batch[i].id != batch[k].id;
  }

  lemma RecordedNone(setting: Setting, rows: map<string, Row>, batch: seq<Row>, k: nat, resolved: map<string, Row>, claimed: map<string, string>)
    requires k < |batch| && DistinctIds(batch) && Recorded(setting, rows, batch, k, resolved, claimed)
    requires Own(setting, rows, batch[k]).None?
    ensures Recorded(setting, rows, batch, k + 1, resolved, claimed)
  {
    RecordedLater(setting, rows, batch, k, resolved, claimed);
    hide Own, RecordedIds, RecordedClaims, DistinctIds;
  }

  lemma RecordedRowsSome(setting: Setting, rows: map<string, Row>, batch: seq<Row>, k: nat, resolved: map<string, Row>, claimed: map<string, string>, c: Row)
    requires k < |batch| && DistinctIds(batch) && RecordedRows(setting, rows, batch, k, resolved, claimed)
    requires Own(setting, rows, batch[k]) == Some(c) && !(c.id in claimed && claimed[c.id] != batch[k].id)
    ensures RecordedRows(setting, rows, batch, k + 1, resolved[batch[k].id := c], claimed[c.id := batch[k].id])
  {
    hide Own;
    var resolved', claimed' := resolved[batch[k].id := c], claimed[c.id := batch[k].id];
    forall i | 0 <= i < k + 1
      ensures match Own(setting, rows, batch[i])
              case Some(d) => batch[i].id in resolved' && resolved'[batch[i].id] == d && d.id in claimed' && claimed'[d.id] == batch[i].id
              case None => batch[i].id !in resolved'
    {
      assert i < k ==> batch[i].id != batch[k].id;
    }
  }

  lemma RecordedIdsSome(batch: seq<Row>, k: nat, resolved: map<string, Row>, c: Row)
    requires k < |batch| && RecordedIds(batch, k, resolved)
    ensures RecordedIds(batch, k + 1, resolved[batch[k].id := c])
  {
    assert batch[k].id == batch[k].id;
  }

  lemma RecordedClaimsSome(setting: Setting, rows: map<string, Row>, batch: seq<Row>, k: nat, claimed: map<string, string>, c: Row)
    requires k < |batch| && RecordedClaims(setting, rows, batch, k, claimed) && Own(setting, rows, batch[k]) == Some(c)
    ensures RecordedClaims(setting, rows, batch, k + 1, claimed[c.id := batch[k].id])
  {
    assert Claims(setting, rows, batch[k], c.id);
    hide Claims, Own;
  }

  lemma RecordedSome(setting: Setting, rows: map<string, Row>, batch: seq<Row>, k: nat, resolved: map<string, Row>, claimed: map<string, string>, c: Row)
    requires k < |batch| && DistinctIds(batch) && Recorded(setting, rows, batch, k, resolved, claimed)
    requires Own(setting, rows, batch[k]) == Some(c) && !(c.id in claimed && claimed[c.id] != batch[k].id)
    ensures Recorded(setting, rows, batch, k + 1, resolved[batch[k].id := c], claimed[c.id := batch[k].id])
  {
    hide RecordedRows, RecordedIds, RecordedClaims, Own;
    RecordedRowsSome(setting, rows, batch, k, resolved, claimed, c);
    RecordedIdsSome(batch, k, resolved, c);
    RecordedClaimsSome(setting, rows, batch, k, claimed, c);
  }

  /** Resolution succeeds exactly on unambiguous batches in which no stored row is claimed twice. */
  lemma {:induction false} ResolveFromExactly(setting: Setting, rows: map<string, Row>, batch: seq<Row>, k: nat,
                                 resolved: map<string, Row>, claimed: map<string, string>)
    requires WellKeyed(rows) && DistinctIds(batch) && k <= |batch| && Recorded(setting, rows, batch, k, resolved, claimed)
    ensures var r := ResolveFrom(setting, rows, batch[k..], resolved, claimed);
            && (r.Ok? <==> Unambiguous(setting, rows, batch, k) && NoDoubleClaim(setting, rows, batch, k))
            && (r.Ok? ==> exists claims :: Recorded(setting, rows, batch, |batch|, r.value, claims))
    decreases |batch| - k
  {
    hide Own, Recorded, Canonical;
    if k < |batch| {
      var row := batch[k];
      assert batch[k..][0] == row && batch[k..][1..] == batch[k + 1..];
      OwnIsCanonical(setting, rows, row);
      match Canonical(setting, rows, row)
      case Err(_) =>
      case Ok(None) =>
        RecordedNone(setting, rows, batch, k, resolved, claimed);
        ResolveFromExactly(setting, rows, batch, k + 1, resolved, claimed);
        assert NoDoubleClaim(setting, rows, batch, k) <==> NoDoubleClaim(setting, rows, batch, k + 1);
      case Ok(Some(c)) =>
        ClaimedBefore(setting, rows, batch, k, resolved, claimed, c);
        if !(c.id in claimed && claimed[c.id] != row.id) {
          RecordedSome(setting, rows, batch, k, resolved, claimed, c);
          ResolveFromExactly(setting, rows, batch, k + 1, resolved[row.id := c], claimed[c.id := row.id]);
        }
    } else {
      assert Recorded(setting, rows, batch, |batch|, resolved, claimed);
    }
  }

  /** No row from the `k`-th on claims a row claimed by an earlier one. */
  ghost predicate NoDoubleClaim(setting: Setting, rows: map<string, Row>, batch: seq<Row>, k: nat) {
    forall i, j :: 0 <= i < j < |batch| && k <= j ==> Apart(Own(setting, rows, batch[i]), Own(setting, rows, batch[j]))
  }

  ghost predicate Apart(a: Option<Row>, b: Option<Row>) {
    a.Some? && b.Some? ==> a.value.id != b.value.id
  }

  lemma OwnIsCanonical(setting: Setting, rows: map<string, Row>, row: Row)
    ensures Canonical(setting, rows, row).Ok? ==> Own(setting, rows, row) == Canonical(setting, rows, row).value
  {
  }

  /** A stored row is claimed by another incoming row exactly when an earlier row of the batch stands for it. */
  lemma ClaimedBefore(setting: Setting, rows: map<string, Row>, batch: seq<Row>, k: nat, resolved: map<string, Row>, claimed: map<string, string>, c: Row)
    requires k < |batch| && DistinctIds(batch) && Recorded(setting, rows, batch, k, resolved, claimed)
    requires Own(setting, rows, batch[k]) == Some(c)
    ensures c.id in claimed && claimed[c.id] != batch[k].id
            <==> exists i :: 0 <= i < k && !Apart(Own(setting, rows, batch[i]), Own(setting, rows, batch[k]))
    ensures NoDoubleClaim(setting, rows, batch, k)
            <==> !(c.id in claimed && claimed[c.id] != batch[k].id) && NoDoubleClaim(setting, rows, batch, k + 1)
  {
    hide Own;
    if c.id in claimed {
      var i :| 0 <= i < k && Claims(setting, rows, batch[i], c.id);
      assert !Apart(Own(setting, rows, batch[i]), Own(setting, rows, batch[k]));
      assert batch[i].id != batch[k].id && claimed[c.id] == batch[i].id;
    }
  }

  /** Within a batch of distinct ids, claiming nothing twice is writing nothing twice. */
  lemma InjectiveWhenUnclaimed(setting: Setting, rows: map<string, Row>, batch: seq<Row>)
    requires WellKeyed(rows) && DistinctIds(batch)
    ensures NoDoubleClaim(setting, rows, batch, 0) <==> Injective(setting, rows, batch)
  {
    forall i, j | 0 <= i < j < |batch|
      ensures Target(setting, rows, batch[i]) != Target(setting, rows, batch[j])
              <==> Apart(Own(setting, rows, batch[i]), Own(setting, rows, batch[j]))
    {
      OwnMeans(setting, rows, batch[i]);
      OwnMeans(setting, rows, batch[j]);
      hide Own;
    }
    hide Target, Own;
    if NoDoubleClaim(setting, rows, batch, 0) {
      forall i, j | 0 <= i < |batch| && 0 <= j < |batch| && i != j
        ensures Target(setting, rows, batch[i]) != Target(setting, rows, batch[j])
      {
        if i < j {
          assert Apart(Own(setting, rows, batch[i]), Own(setting, rows, batch[j]));
        } else {
          assert Apart(Own(setting, rows, batch[j]), Own(setting, rows, batch[i]));
        }
      }
    }
  }

  /** What resolution hands to the writing loop. */
  ghost predicate AliasesExact(setting: Setting, rows: map<string, Row>, batch: seq<Row>, aliases: map<string, Row>) {
    forall i :: 0 <= i < |batch| && batch[i].id !in rows ==>
      match Own(setting, rows, batch[i])
      case Some(c) => batch[i].id in aliases && aliases[batch[i].id] == c
      case None => batch[i].id !in aliases
  }

  /** A batch is accepted exactly when it is unambiguous and its rows write different rows. */
  lemma AcceptedExactly(setting: Setting, rows: map<string, Row>, batch: seq<Row>)
    requires WellKeyed(rows) && DistinctIds(batch)
    ensures Resolve(setting, rows, batch).Ok? <==> Unambiguous(setting, rows, batch, 0) && Injective(setting, rows, batch)
    ensures Resolve(setting, rows, batch).Ok? ==> AliasesExact(setting, rows, batch, Resolve(setting, rows, batch).value)
  {
    assert batch[0..] == batch;
    ResolveFromExactly(setting, rows, batch, 0, map[], map[]);
    InjectiveWhenUnclaimed(setting, rows, batch);
    hide Own;
  }

  // ================================================================ the rows afterwards

  ghost predicate Targeted(setting: Setting, rows: map<string, Row>, batch: seq<Row>, k: nat, id: string)
    requires k <= |batch|
  {
    exists i :: 0 <= i < k && Target(setting, rows, batch[i]) == id
  }

  /** After the first `k` rows, the targets hold what those rows write and all other rows are as before. */
  ghost predicate After(setting: Setting, rows: map<string, Row>, batch: seq<Row>, k: nat, after: map<string, Row>)
    requires k <= |batch|
  {
    && (forall i :: 0 <= i < k ==>
          Target(setting, rows, batch[i]) in after && after[Target(setting, rows, batch[i])] == Written(setting, rows, batch[i]))
    && (forall id :: id in after ==> id in rows || Targeted(setting, rows, batch, k, id))
    && (forall id :: id in rows ==> id in after && (!Targeted(setting, rows, batch, k, id) ==> after[id] == rows[id]))
  }

  lemma WriteExtends(setting: Setting, rows: map<string, Row>, batch: seq<Row>, k: nat, after: map<string, Row>)
    requires k < |batch| && Injective(setting, rows, batch) && After(setting, rows, batch, k, after)
    ensures After(setting, rows, batch, k + 1, after[Target(setting, rows, batch[k]) := Written(setting, rows, batch[k])])
  {
    hide Target, Written;
    var target := Target(setting, rows, batch[k]);
    var after' := after[target := Written(setting, rows, batch[k])];
    forall id
      ensures Targeted(setting, rows, batch, k + 1, id) <==> id == target || Targeted(setting, rows, batch, k, id)
    {
      if Targeted(setting, rows, batch, k, id) {
        var i :| 0 <= i < k && Target(setting, rows, batch[i]) == id;
      }
      assert Target(setting, rows, batch[k]) == target;
    }
    forall i | 0 <= i < k + 1
      ensures Target(setting, rows, batch[i]) in after' && after'[Target(setting, rows, batch[i])] == Written(setting, rows, batch[i])
    {
      assert i < k ==> Target(setting, rows, batch[i]) != target;
    }
  }

  /** The loop's next write goes to the row's target. */
  lemma StepWrites(setting: Setting, rows: map<string, Row>, batch: seq<Row>, k: nat, p: Progress, aliases: map<string, Row>)
    requires WellKeyed(rows) && DistinctIds(batch) && k < |batch| && Injective(setting, rows, batch)
    requires AliasesExact(setting, rows, batch, aliases) && After(setting, rows, batch, k, p.rows)
    ensures UpsertRow(p, aliases, batch[k]).rows == p.rows[Target(setting, rows, batch[k]) := Written(setting, rows, batch[k])]
    ensures UpsertRow(p, aliases, batch[k]).summary.inserted == p.summary.inserted + if Own(setting, rows, batch[k]).None? then 1 else 0
  {
    var row := batch[k];
    OwnMeans(setting, rows, row);
    if row.id in p.rows && row.id !in rows {
      var i :| 0 <= i < k && Target(setting, rows, batch[i]) == row.id;
      OwnMeans(setting, rows, batch[i]);
      assert false;
    }
    if row.id in rows {
      assert Own(setting, rows, row) == Some(rows[row.id]) && Target(setting, rows, row) == row.id;
      assert !Targeted(setting, rows, batch, k, row.id) by {
        assert forall i :: 0 <= i < k ==> Target(setting, rows, batch[i]) != Target(setting, rows, batch[k]);
      }
    }
    hide Own, RowAnomalies, VisiblyChanged, Refreshed;
  }

  ghost function Insertions(setting: Setting, rows: map<string, Row>, batch: seq<Row>, k: nat): nat
    requires k <= |batch|
    decreases |batch| - k
  {
    if k == |batch| then 0 else (if Own(setting, rows, batch[k]).None? then 1 else 0) + Insertions(setting, rows, batch, k + 1)
  }

  lemma {:induction false} StepsWrite(setting: Setting, rows: map<string, Row>, batch: seq<Row>, k: nat, p: Progress, aliases: map<string, Row>)
    requires WellKeyed(rows) && DistinctIds(batch) && k <= |batch| && Injective(setting, rows, batch)
    requires AliasesExact(setting, rows, batch, aliases) && After(setting, rows, batch, k, p.rows)
    ensures var p' := UpsertRows(p, aliases, batch[k..]);
            After(setting, rows, batch, |batch|, p'.rows) && p'.summary.inserted == p.summary.inserted + Insertions(setting, rows, batch, k)
    decreases |batch| - k
  {
    hide After, AliasesExact, Injective, UpsertRow, Own;
    if k < |batch| {
      assert batch[k..][0] == batch[k] && batch[k..][1..] == batch[k + 1..];
      StepWrites(setting, rows, batch, k, p, aliases);
      WriteExtends(setting, rows, batch, k, p.rows);
      StepsWrite(setting, rows, batch, k + 1, UpsertRow(p, aliases, batch[k]), aliases);
    }
  }

  /** An accepted batch writes each row's target once and nothing else; it inserts exactly the rows that stand for no stored row. */
  lemma BatchWrites(l: Ledger, setting: Setting, batch: seq<Row>)
    requires WellKeyed(l.rows) && DistinctIds(batch)
    ensures Upserted(l, Some(setting), batch).Ok? <==> Unambiguous(setting, l.rows, batch, 0) && Injective(setting, l.rows, batch)
    ensures Upserted(l, Some(setting), batch).Ok? ==>
              && After(setting, l.rows, batch, |batch|, Upserted(l, Some(setting), batch).value.0.rows)
              && Upserted(l, Some(setting), batch).value.1.inserted == Insertions(setting, l.rows, batch, 0)
  {
    AcceptedExactly(setting, l.rows, batch);
    hide Unambiguous, Injective;
    if Resolve(setting, l.rows, batch).Ok? {
      assert batch[0..] == batch;
      StepsWrite(setting, l.rows, batch, 0, Progress(l.rows, EMPTY_SUMMARY), Resolve(setting, l.rows, batch).value);
    }
  }

  // ================================================================ order

  ghost predicate SameMembers(a: seq<Row>, b: seq<Row>) {
    forall row :: row in a <==> row in b
  }

  lemma AcceptanceIgnoresOrder(setting: Setting, rows: map<string, Row>, a: seq<Row>, b: seq<Row>)
    requires DistinctIds(a) && DistinctIds(b) && SameMembers(a, b)
    requires Unambiguous(setting, rows, a, 0) && Injective(setting, rows, a)
    ensures Unambiguous(setting, rows, b, 0) && Injective(setting, rows, b)
  {
    hide Canonical, Target;
    forall i | 0 <= i < |b|
      ensures Canonical(setting, rows, b[i]).Ok?
    {
      assert b[i] in a;
    }
    forall i, j | 0 <= i < |b| && 0 <= j < |b| && i != j
      ensures Target(setting, rows, b[i]) != Target(setting, rows, b[j])
    {
      assert b[i] in a && b[j] in a;
      assert b[i].id != b[j].id by {
        if i < j {
          assert b[i].id != b[j].id;
        } else {
          assert b[j].id != b[i].id;
        }
      }
    }
  }

  lemma SameWrites(setting: Setting, rows: map<string, Row>, a: seq<Row>, b: seq<Row>, x: map<string, Row>, y: map<string, Row>)
    requires SameMembers(a, b) && After(setting, rows, a, |a|, x) && After(setting, rows, b, |b|, y)
    ensures x == y
  {
    hide Target, Written;
    forall id
      ensures Targeted(setting, rows, a, |a|, id) <==> Targeted(setting, rows, b, |b|, id)
      ensures id in x <==> id in y
      ensures id in x ==> x[id] == y[id]
    {
      if Targeted(setting, rows, a, |a|, id) {
        var i :| 0 <= i < |a| && Target(setting, rows, a[i]) == id;
        assert a[i] in b;
        var j :| 0 <= j < |b| && b[j] == a[i];
        assert Target(setting, rows, b[j]) == id;
      }
      if Targeted(setting, rows, b, |b|, id) {
        var j :| 0 <= j < |b| && Target(setting, rows, b[j]) == id;
        assert b[j] in a;
        var i :| 0 <= i < |a| && a[i] == b[j];
        assert Target(setting, rows, a[i]) == id;
      }
    }
  }

  /** The same rows in any order are accepted or refused alike, and leave the same ledger rows. */
  lemma OrderDoesNotMatter(l: Ledger, setting: Setting, a: seq<Row>, b: seq<Row>)
    requires WellKeyed(l.rows) && DistinctIds(a) && DistinctIds(b) && SameMembers(a, b)
    ensures Upserted(l, Some(setting), a).Ok? <==> Upserted(l, Some(setting), b).Ok?
    ensures Upserted(l, Some(setting), a).Ok? ==>
              Upserted(l, Some(setting), a).value.0.rows == Upserted(l, Some(setting), b).value.0.rows
  {
    BatchWrites(l, setting, a);
    BatchWrites(l, setting, b);
    hide Upserted, After;
    if Upserted(l, Some(setting), a).Ok? {
      AcceptanceIgnoresOrder(setting, l.rows, a, b);
      SameWrites(setting, l.rows, a, b, Upserted(l, Some(setting), a).value.0.rows, Upserted(l, Some(setting), b).value.0.rows);
    } else if Upserted(l, Some(setting), b).Ok? {
      AcceptanceIgnoresOrder(setting, l.rows, b, a);
    }
  }
}
