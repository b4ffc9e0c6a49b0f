/** Freeze semantics over runs of upserts, and account totals. */
module LedgerHistory {
  import opened Common
  import opened LedgerRows
  import opened ArchiveInstallments
  import opened MemoryLedger
  import opened LedgerCoalescing
  import opened LedgerBatches

  /** How a stored row may change while its id stays: frozen fields never, status only to posted, nothing known is forgotten. */
  ghost predicate Evolves(a: Row, b: Row) {
    && SameFrozen(a, b)
    && (a.status.Posted? ==> b.status.Posted?)
    && (a.postedSeenAt.Some? ==> b.postedSeenAt == a.postedSeenAt)
    && (a.postedSeenAt.None? ==> (b.postedSeenAt.Some? <==> a.status.Pending? && b.status.Posted?))
    && (a.chargeDate.Some? ==> b.chargeDate.Some?) && (a.category.Some? ==> b.category.Some?) && (a.memo.Some? ==> b.memo.Some?)
    && (Recognised(ArchiveOf(a.raw)) ==> ArchiveOf(b.raw) == ArchiveOf(a.raw))
  }

  lemma EvolvesTransitive(a: Row, b: Row, c: Row)
    requires Evolves(a, b) && Evolves(b, c)
    ensures Evolves(a, c)
  {
  }

  lemma RefreshEvolves(existing: Row, row: Row)
    ensures Evolves(existing, Refreshed(existing, row))
    ensures existing.postedSeenAt.None? && existing.status.Pending? ==>
              Refreshed(existing, row).postedSeenAt == if row.status.Posted? then Some(row.lastSeen) else None
  {
  }

  // ================================================================ upserts without a time zone

  /** A setting in which no source date can be read, so no installment is ever recognised. */
  const NO_ZONE := Setting(_ => None, _ => "")

  lemma NothingMatches(rows: map<string, Row>, row: Row)
    ensures MatchIds(NO_ZONE, rows, row) == {}
  {
  }

  lemma {:induction false} OnlyStoredResolve(rows: map<string, Row>, batch: seq<Row>, k: nat, resolved: map<string, Row>, claimed: map<string, string>)
    requires WellKeyed(rows) && DistinctIds(batch) && k <= |batch|
    requires forall id :: id in resolved ==> id in rows
    requires forall id :: id in claimed ==> claimed[id] == id
    ensures ResolveFrom(NO_ZONE, rows, batch[k..], resolved, claimed).Ok?
    ensures forall id :: id in ResolveFrom(NO_ZONE, rows, batch[k..], resolved, claimed).value ==> id in rows
    decreases |batch| - k
  {
    if k < |batch| {
      assert batch[k..][0] == batch[k] && batch[k..][1..] == batch[k + 1..];
      NothingMatches(rows, batch[k]);
      hide MatchIds;
      if batch[k].id in rows {
        OnlyStoredResolve(rows, batch, k + 1, resolved[batch[k].id := rows[batch[k].id]], claimed[batch[k].id := batch[k].id]);
      } else {
        OnlyStoredResolve(rows, batch, k + 1, resolved, claimed);
      }
    }
  }

  lemma {:induction false} UselessAliases(p: Progress, aliases: map<string, Row>, batch: seq<Row>)
    requires forall id :: id in aliases ==> id in p.rows
    ensures UpsertRows(p, aliases, batch) == UpsertRows(p, map[], batch)
    decreases |batch|
  {
    if batch != [] {
      hide RefreshRow;
      assert UpsertRow(p, aliases, batch[0]) == UpsertRow(p, map[], batch[0]);
      GrowingKeys(p, aliases, batch[0]);
      UselessAliases(UpsertRow(p, aliases, batch[0]), aliases, batch[1..]);
    }
  }

  lemma GrowingKeys(p: Progress, aliases: map<string, Row>, row: Row)
    ensures p.rows.Keys <= UpsertRow(p, aliases, row).rows.Keys
  {
  }

  function Zone(setting: Option<Setting>): Setting {
    setting.GetOr(NO_ZONE)
  }

  /** Leaving the time zone out is using one in which nothing is recognised. */
  lemma WithoutZone(l: Ledger, setting: Option<Setting>, batch: seq<Row>)
    requires WellKeyed(l.rows) && DistinctIds(batch)
    ensures Upserted(l, setting, batch) == Upserted(l, Some(Zone(setting)), batch)
  {
    if setting.None? {
      assert batch[0..] == batch;
      OnlyStoredResolve(l.rows, batch, 0, map[], map[]);
      UselessAliases(Progress(l.rows, EMPTY_SUMMARY), Resolve(NO_ZONE, l.rows, batch).value, batch);
    }
    hide UpsertRows, Resolve;
  }

  // ================================================================ freeze

  ghost predicate AllEvolve(before: map<string, Row>, after: map<string, Row>) {
    forall id :: id in before ==> id in after && Evolves(before[id], after[id])
  }

  /** A posted row of the batch, last seen at `time`, writes the row stored under `id`. */
  ghost predicate PostedBy(setting: Option<Setting>, rows: map<string, Row>, batch: seq<Row>, id: string, time: int) {
    exists i :: 0 <= i < |batch| && PostsRow(setting, rows, batch[i], id, time)
  }

  ghost predicate PostsRow(setting: Option<Setting>, rows: map<string, Row>, row: Row, id: string, time: int) {
    Target(Zone(setting), rows, row) == id && row.status.Posted? && row.lastSeen == time
  }

  /** What an accepted batch makes of one stored row. */
  lemma StoredRowAfter(setting: Setting, rows: map<string, Row>, batch: seq<Row>, after: map<string, Row>, id: string)
    requires WellKeyed(rows) && After(setting, rows, batch, |batch|, after) && id in rows
    ensures id in after
    ensures forall i :: 0 <= i < |batch| && Target(setting, rows, batch[i]) == id ==> after[id] == Refreshed(rows[id], batch[i])
    ensures (forall i :: 0 <= i < |batch| ==> Target(setting, rows, batch[i]) != id) ==> after[id] == rows[id]
  {
    hide Refreshed;
    forall i | 0 <= i < |batch| && Target(setting, rows, batch[i]) == id
      ensures id in after && after[id] == Refreshed(rows[id], batch[i])
    {
      OwnMeans(setting, rows, batch[i]);
    }
  }

  /**
   * One accepted upsert only lets stored rows evolve. A row posted by it carries the time of the batch row that
   * was written to it, and every stored row that such a posted batch row is written to is posted.
   */
  lemma BatchEvolves(l: Ledger, setting: Option<Setting>, batch: seq<Row>)
    requires WellKeyed(l.rows) && DistinctIds(batch) && Upserted(l, setting, batch).Ok?
    ensures var after := Upserted(l, setting, batch).value.0.rows;
            && WellKeyed(after) && AllEvolve(l.rows, after)
            && (forall id, time :: id in l.rows && l.rows[id].status.Pending? && l.rows[id].postedSeenAt.None? ==>
                  (after[id].postedSeenAt == Some(time) <==> PostedBy(setting, l.rows, batch, id, time)))
  {
    var zone := Zone(setting);
    WithoutZone(l, setting, batch);
    BatchWrites(l, zone, batch);
    var after := Upserted(l, setting, batch).value.0.rows;
    AfterKeyed(zone, l.rows, batch, after);
    hide Upserted, Zone, WellKeyed, After;
    forall id | id in l.rows
      ensures id in after && Evolves(l.rows[id], after[id])
    {
      StoredRowEvolves(setting, l.rows, batch, after, id, 0);
    }
    forall id, time | id in l.rows && l.rows[id].status.Pending? && l.rows[id].postedSeenAt.None?
      ensures after[id].postedSeenAt == Some(time) <==> PostedBy(setting, l.rows, batch, id, time)
    {
      StoredRowEvolves(setting, l.rows, batch, after, id, time);
    }
  }

  lemma AfterKeyed(setting: Setting, rows: map<string, Row>, batch: seq<Row>, after: map<string, Row>)
    requires WellKeyed(rows) && After(setting, rows, batch, |batch|, after)
    ensures WellKeyed(after)
  {
    forall id | id in after
      ensures after[id].id == id
    {
      if Targeted(setting, rows, batch, |batch|, id) {
        var i :| 0 <= i < |batch| && Target(setting, rows, batch[i]) == id;
        OwnMeans(setting, rows, batch[i]);
      }
    }
  }

  lemma StoredRowEvolves(setting: Option<Setting>, rows: map<string, Row>, batch: seq<Row>, after: map<string, Row>, id: string, time: int)
    requires WellKeyed(rows) && After(Zone(setting), rows, batch, |batch|, after) && id in rows
    ensures id in after && Evolves(rows[id], after[id])
    ensures rows[id].status.Pending? && rows[id].postedSeenAt.None? ==>
              (after[id].postedSeenAt == Some(time) <==> PostedBy(setting, rows, batch, id, time))
  {
    var zone := Zone(setting);
    StoredRowAfter(zone, rows, batch, after, id);
    hide After, Target, WellKeyed;
    if i :| 0 <= i < |batch| && Target(zone, rows, batch[i]) == id {
      RefreshEvolves(rows[id], batch[i]);
      hide Refreshed, Evolves;
      forall j | 0 <= j < |batch| && Target(zone, rows, batch[j]) == id
        ensures PostsRow(setting, rows, batch[j], id, time) && rows[id].status.Pending? && rows[id].postedSeenAt.None? ==>
                  after[id].postedSeenAt == Some(time)
      {
        RefreshEvolves(rows[id], batch[j]);
      }
      assert PostsRow(setting, rows, batch[i], id, batch[i].lastSeen) <==> batch[i].status.Posted?;
    }
  }

  /** Rows an accepted upsert adds are rows of its batch. */
  lemma NewRowsAreFromBatch(l: Ledger, setting: Option<Setting>, batch: seq<Row>)
    requires WellKeyed(l.rows) && DistinctIds(batch) && Upserted(l, setting, batch).Ok?
    ensures var after := Upserted(l, setting, batch).value.0.rows;
            forall id :: id in after && id !in l.rows ==> after[id] in batch
  {
    var zone := Zone(setting);
    WithoutZone(l, setting, batch);
    BatchWrites(l, zone, batch);
    var after := Upserted(l, setting, batch).value.0.rows;
    hide Upserted, Zone;
    forall id | id in after && id !in l.rows
      ensures after[id] in batch
    {
      var i :| 0 <= i < |batch| && Target(zone, l.rows, batch[i]) == id;
      OwnMeans(zone, l.rows, batch[i]);
    }
  }

  datatype Upsert = Upsert(setting: Option<Setting>, batch: seq<Row>)

  /** A refused upsert leaves the ledger as it was. */
  ghost function AfterUpsert(l: Ledger, u: Upsert): Ledger {
    match Upserted(l, u.setting, u.batch)
    case Err(_) => l
    case Ok((after, _)) => after
  }

  ghost function AfterUpserts(l: Ledger, us: seq<Upsert>): Ledger
    decreases |us|
  {
    if us == [] then l else AfterUpserts(AfterUpsert(l, us[0]), us[1..])
  }

  ghost predicate DistinctBatches(us: seq<Upsert>) {
    forall i :: 0 <= i < |us| ==> DistinctIds(us[i].batch)
  }

  /** Some upsert of the run, accepted on the ledger it met, brings a posted row last seen at `time` that is written under `id`. */
  ghost predicate PostedDuring(l: Ledger, us: seq<Upsert>, id: string, time: int)
    decreases |us|
  {
    us != [] && (
      || (Upserted(l, us[0].setting, us[0].batch).Ok? && PostedBy(us[0].setting, l.rows, us[0].batch, id, time))
      || PostedDuring(AfterUpsert(l, us[0]), us[1..], id, time))
  }

  /** Over any run of upserts, accepted or refused, every stored row stays and only evolves. */
  lemma {:induction false} FrozenOverRuns(l: Ledger, us: seq<Upsert>)
    requires WellKeyed(l.rows) && DistinctBatches(us)
    ensures WellKeyed(AfterUpserts(l, us).rows) && AllEvolve(l.rows, AfterUpserts(l, us).rows)
    decreases |us|
  {
    if us == [] {
      AllEvolveReflexive(l.rows);
    } else {
      var next := AfterUpsert(l, us[0]);
      if Upserted(l, us[0].setting, us[0].batch).Ok? {
        BatchEvolves(l, us[0].setting, us[0].batch);
      } else {
        AllEvolveReflexive(l.rows);
      }
      hide Upserted, AllEvolve, AfterUpsert;
      FrozenOverRuns(next, us[1..]);
      AllEvolveTransitive(l.rows, next.rows, AfterUpserts(l, us).rows);
    }
  }

  /** One upsert, accepted or refused. */
  lemma UpsertPosts(l: Ledger, u: Upsert, id: string, time: int)
    requires WellKeyed(l.rows) && DistinctIds(u.batch) && id in l.rows
    ensures var next := AfterUpsert(l, u).rows;
            && WellKeyed(next) && id in next && Evolves(l.rows[id], next[id])
            && (l.rows[id].status.Pending? && l.rows[id].postedSeenAt.None? ==>
                  (next[id].postedSeenAt == Some(time) <==>
                     Upserted(l, u.setting, u.batch).Ok? && PostedBy(u.setting, l.rows, u.batch, id, time)))
  {
    if Upserted(l, u.setting, u.batch).Ok? {
      BatchEvolves(l, u.setting, u.batch);
    }
    hide Upserted, PostedBy;
  }

  lemma PostedLater(l: Ledger, us: seq<Upsert>, id: string, time: int)
    requires WellKeyed(l.rows) && us != [] && DistinctIds(us[0].batch) && id in l.rows
    requires l.rows[id].status.Pending? && l.rows[id].postedSeenAt.None?
    requires id in AfterUpsert(l, us[0]).rows && AfterUpsert(l, us[0]).rows[id].postedSeenAt != Some(time)
    ensures PostedDuring(l, us, id, time) <==> PostedDuring(AfterUpsert(l, us[0]), us[1..], id, time)
  {
    UpsertPosts(l, us[0], id, time);
    hide Upserted, AfterUpsert, PostedBy;
  }

  /**
   * Over any run, a pending row is posted at the end exactly when a posted row was written to it, and the time at
   * which it is said to have been posted is the time of such a row.
   */
  lemma {:induction false} PostedOverRuns(l: Ledger, us: seq<Upsert>, id: string)
    requires WellKeyed(l.rows) && DistinctBatches(us) && id in l.rows
    requires l.rows[id].status.Pending? && l.rows[id].postedSeenAt.None?
    ensures id in AfterUpserts(l, us).rows
    ensures var end := AfterUpserts(l, us).rows[id];
            && (end.status.Posted? <==> exists time :: PostedDuring(l, us, id, time))
            && (end.status.Posted? <==> end.postedSeenAt.Some?)
            && (end.status.Posted? ==> PostedDuring(l, us, id, end.postedSeenAt.value))
    decreases |us|
  {
    if us != [] {
      var next := AfterUpsert(l, us[0]);
      assert DistinctBatches(us[1..]) && DistinctIds(us[0].batch);
      UpsertPosts(l, us[0], id, 0);
      UpsertPosts(l, us[0], id, next.rows[id].postedSeenAt.GetOr(0));
      var end := AfterUpserts(l, us).rows;
      hide Upserted, AfterUpsert, PostedBy, WellKeyed, DistinctBatches;
      if next.rows[id].postedSeenAt.None? {
        PostedOverRuns(next, us[1..], id);
        if end[id].status.Posted? {
          PostedLater(l, us, id, end[id].postedSeenAt.value);
        }
        if time :| PostedDuring(l, us, id, time) {
          PostedLater(l, us, id, time);
        }
      } else {
        FrozenOverRuns(next, us[1..]);
        assert Evolves(next.rows[id], end[id]);
        assert PostedDuring(l, us, id, next.rows[id].postedSeenAt.value);
      }
    }
  }

  lemma AllEvolveReflexive(rows: map<string, Row>)
    ensures AllEvolve(rows, rows)
  {
  }

  lemma AllEvolveTransitive(a: map<string, Row>, b: map<string, Row>, c: map<string, Row>)
    requires AllEvolve(a, b) && AllEvolve(b, c)
    ensures AllEvolve(a, c)
  {
    forall id | id in a
      ensures id in c && Evolves(a[id], c[id])
    {
      EvolvesTransitive(a[id], b[id], c[id]);
    }
  }

  // ================================================================ account totals

  function Share(row: Row, account: string): int {
    if row.accountId == account then row.amount else 0
  }

  /** The sum of an account's amounts over some of the stored ids. */
  ghost function TotalOf(rows: map<string, Row>, ids: set<string>, account: string): int
    requires ids <= rows.Keys
    decreases |ids|
  {
    if ids == {} then 0
    else var id :| id in ids; Share(rows[id], account) + TotalOf(rows, ids - {id}, account)
  }

  ghost function Total(rows: map<string, Row>, account: string): int {
    TotalOf(rows, rows.Keys, account)
  }

  lemma {:induction false} TotalSplit(rows: map<string, Row>, ids: set<string>, account: string, id: string)
    requires ids <= rows.Keys && id in ids
    ensures TotalOf(rows, ids, account) == Share(rows[id], account) + TotalOf(rows, ids - {id}, account)
    decreases |ids|
  {
    var first :| first in ids && TotalOf(rows, ids, account) == Share(rows[first], account) + TotalOf(rows, ids - {first}, account);
    if first != id {
      TotalSplit(rows, ids - {first}, account, id);
      TotalSplit(rows, ids - {id}, account, first);
      assert ids - {first} - {id} == ids - {id} - {first};
    }
  }

  lemma {:induction false} TotalSame(a: map<string, Row>, b: map<string, Row>, ids: set<string>, account: string)
    requires ids <= a.Keys && ids <= b.Keys && forall id :: id in ids ==> Share(a[id], account) == Share(b[id], account)
    ensures TotalOf(a, ids, account) == TotalOf(b, ids, account)
    decreases |ids|
  {
    if ids != {} {
      var id :| id in ids;
      TotalSplit(a, ids, account, id);
      TotalSplit(b, ids, account, id);
      TotalSame(a, b, ids - {id}, account);
    }
  }

  /** Writing one row moves the total by the difference it makes. */
  lemma TotalWrite(rows: map<string, Row>, id: string, row: Row, account: string)
    ensures Total(rows[id := row], account)
            == Total(rows, account) + Share(row, account) - if id in rows then Share(rows[id], account) else 0
  {
    var after := rows[id := row];
    TotalSplit(after, after.Keys, account, id);
    TotalSame(rows, after, rows.Keys - {id}, account);
    assert after.Keys - {id} == rows.Keys - {id};
    if id in rows {
      TotalSplit(rows, rows.Keys, account, id);
    } else {
      assert rows.Keys - {id} == rows.Keys;
    }
  }

  lemma TotalRemove(rows: map<string, Row>, id: string, account: string)
    requires id in rows
    ensures Total(rows - {id}, account) == Total(rows, account) - Share(rows[id], account)
  {
    TotalSplit(rows, rows.Keys, account, id);
    TotalSame(rows, rows - {id}, rows.Keys - {id}, account);
    assert (rows - {id}).Keys == rows.Keys - {id};
  }

  /** What the inserted rows of a batch add to an account. */
  ghost function InsertedShare(setting: Setting, rows: map<string, Row>, batch: seq<Row>, k: nat, account: string): int
    requires k <= |batch|
    decreases |batch| - k
  {
    if k == |batch| then 0
    else (if Own(setting, rows, batch[k]).None? then Share(batch[k], account) else 0) + InsertedShare(setting, rows, batch, k + 1, account)
  }

  lemma {:induction false} StepsAdd(setting: Setting, rows: map<string, Row>, batch: seq<Row>, k: nat, p: Progress, aliases: map<string, Row>, account: string)
    requires WellKeyed(rows) && DistinctIds(batch) && k <= |batch| && Injective(setting, rows, batch)
    requires AliasesExact(setting, rows, batch, aliases) && After(setting, rows, batch, k, p.rows)
    ensures Total(UpsertRows(p, aliases, batch[k..]).rows, account) == Total(p.rows, account) + InsertedShare(setting, rows, batch, k, account)
    decreases |batch| - k
  {
    hide AliasesExact, Injective, UpsertRow, Total;
    if k < |batch| {
      assert batch[k..][0] == batch[k] && batch[k..][1..] == batch[k + 1..];
      StepWrites(setting, rows, batch, k, p, aliases);
      WriteExtends(setting, rows, batch, k, p.rows);
      TotalWrite(p.rows, Target(setting, rows, batch[k]), Written(setting, rows, batch[k]), account);
      StepShare(setting, rows, batch, k, p.rows, account);
      hide After, Own, Written, Target;
      StepsAdd(setting, rows, batch, k + 1, UpsertRow(p, aliases, batch[k]), aliases, account);
    }
  }

  /** A refresh keeps the share of the row it lands on; an insertion lands on no row. */
  lemma StepShare(setting: Setting, rows: map<string, Row>, batch: seq<Row>, k: nat, current: map<string, Row>, account: string)
    requires WellKeyed(rows) && DistinctIds(batch) && k < |batch| && Injective(setting, rows, batch) && After(setting, rows, batch, k, current)
    ensures var target := Target(setting, rows, batch[k]);
            match Own(setting, rows, batch[k])
            case None => target !in current && Written(setting, rows, batch[k]) == batch[k]
            case Some(_) => target in current && Share(Written(setting, rows, batch[k]), account) == Share(current[target], account)
  {
    var row := batch[k];
    OwnMeans(setting, rows, row);
    assert !Targeted(setting, rows, batch, k, Target(setting, rows, row)) by {
      assert forall i :: 0 <= i < k ==> Target(setting, rows, batch[i]) != Target(setting, rows, batch[k]);
    }
    if Own(setting, rows, row).Some? {
      RefreshEvolves(Own(setting, rows, row).value, row);
    }
  }

  /** An accepted upsert changes an account's total by exactly the rows it inserts there. */
  lemma UpsertTotals(l: Ledger, setting: Option<Setting>, batch: seq<Row>, account: string)
    requires WellKeyed(l.rows) && DistinctIds(batch) && Upserted(l, setting, batch).Ok?
    ensures Total(Upserted(l, setting, batch).value.0.rows, account)
            == Total(l.rows, account) + InsertedShare(Zone(setting), l.rows, batch, 0, account)
  {
    WithoutZone(l, setting, batch);
    var zone := Zone(setting);
    AcceptedExactly(zone, l.rows, batch);
    hide Unambiguous, Injective, Total, Zone, Resolve;
    assert batch[0..] == batch;
    StepsAdd(zone, l.rows, batch, 0, Progress(l.rows, EMPTY_SUMMARY), Resolve(zone, l.rows, batch).value, account);
  }

  /** What the accepted upserts of a run insert into an account. */
  ghost function InsertedDuring(l: Ledger, us: seq<Upsert>, account: string): int
    decreases |us|
  {
    if us == [] then 0
    else
      (if Upserted(l, us[0].setting, us[0].batch).Ok? then InsertedShare(Zone(us[0].setting), l.rows, us[0].batch, 0, account) else 0)
      + InsertedDuring(AfterUpsert(l, us[0]), us[1..], account)
  }

  /** Over any run of upserts an account's total moves by exactly what was inserted there. */
  lemma {:induction false} TotalsOverRuns(l: Ledger, us: seq<Upsert>, account: string)
    requires WellKeyed(l.rows) && DistinctBatches(us)
    ensures Total(AfterUpserts(l, us).rows, account) == Total(l.rows, account) + InsertedDuring(l, us, account)
    decreases |us|
  {
    if us != [] {
      if Upserted(l, us[0].setting, us[0].batch).Ok? {
        UpsertTotals(l, us[0].setting, us[0].batch, account);
        BatchEvolves(l, us[0].setting, us[0].batch);
      }
      hide Upserted, Total, InsertedShare, WellKeyed;
      TotalsOverRuns(AfterUpsert(l, us[0]), us[1..], account);
    }
  }

  ghost function RemovedShare(pairs: seq<(Row, Row)>, account: string): int {
    if pairs == [] then 0 else Share(pairs[0].1, account) + RemovedShare(pairs[1..], account)
  }

  lemma {:induction false} CoalesceRowsTotals(rows: map<string, Row>, pairs: seq<(Row, Row)>, account: string)
    requires DistinctPairs(pairs)
    requires forall i :: 0 <= i < |pairs| ==> pairs[i].0.id in rows && Share(rows[pairs[i].0.id], account) == Share(pairs[i].0, account)
    requires forall i :: 0 <= i < |pairs| ==> pairs[i].1.id in rows && Share(rows[pairs[i].1.id], account) == Share(pairs[i].1, account)
    ensures Total(CoalesceRows(rows, pairs), account) == Total(rows, account) - RemovedShare(pairs, account)
    decreases |pairs|
  {
    hide Total;
    if pairs != [] {
      var canonical, duplicate, rest := pairs[0].0, pairs[0].1, pairs[1..];
      var written := rows[canonical.id := Coalesced(canonical, duplicate)];
      TotalWrite(rows, canonical.id, Coalesced(canonical, duplicate), account);
      TotalRemove(written, duplicate.id, account);
      assert forall i :: 0 <= i < |rest| ==> rest[i] == pairs[i + 1];
      CoalesceRowsTotals(written - {duplicate.id}, rest, account);
    }
  }

  /** A successful coalesce takes exactly the duplicates' amounts out of an account's total. */
  lemma CoalesceTotals(l: Ledger, setting: Setting, pairs: seq<Pair>, account: string)
    requires WellKeyed(l.rows) && CoalescedLedger(l, setting, pairs, false).Ok?
    ensures Total(CoalescedLedger(l, setting, pairs, false).value.0.rows, account)
            == Total(l.rows, account) - RemovedShare(Validate(setting, l.rows, pairs).value, account)
  {
    ValidateMeans(setting, l.rows, pairs);
    var validated := Validate(setting, l.rows, pairs).value;
    hide Validate, Matches, MatchIds, Total, RemovedShare, Depended;
    assert forall i :: 0 <= i < |validated| ==> CheckedPair(setting, l.rows, validated[i]);
    CoalesceRowsTotals(l.rows, validated, account);
  }
}
