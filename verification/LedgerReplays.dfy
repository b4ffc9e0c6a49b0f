/** Repeating a batch, and replaying portal rows after their duplicates were coalesced away. */
module LedgerReplays {
  import opened Common
  import opened LedgerRows
  import opened ArchiveInstallments
  import opened MemoryLedger
  import opened LedgerCoalescing
  import opened LedgerBatches

  /** Refreshing twice with the same row is refreshing once; refreshing a row with itself changes nothing. */
  lemma RefreshIdempotent(existing: Row, row: Row)
    ensures Refreshed(Refreshed(existing, row), row) == Refreshed(existing, row)
    ensures Refreshed(row, row) == row
  {
  }

  /** Matching looks only at fields and evidence that a refresh keeps. */
  lemma MatchesKept(setting: Setting, a: Row, b: Row, incoming: Row)
    requires SameFrozen(a, b) && a.status == b.status && ArchiveOf(a.raw) == ArchiveOf(b.raw)
    ensures Matches(setting, a, incoming) <==> Matches(setting, b, incoming)
  {
  }

  /** A refreshed posted archive row keeps its identity and evidence. */
  lemma RefreshKeepsEvidence(existing: Row, row: Row)
    requires existing.status.Posted? && Recognised(ArchiveOf(existing.raw))
    ensures SameFrozen(existing, Refreshed(existing, row)) && Refreshed(existing, row).status == existing.status
    ensures ArchiveOf(Refreshed(existing, row).raw) == ArchiveOf(existing.raw)
  {
  }

  lemma MatchesAfterRefresh(setting: Setting, c: Row, row: Row)
    requires Matches(setting, c, row)
    ensures Matches(setting, Refreshed(c, row), row)
  {
    RefreshKeepsEvidence(c, row);
    MatchesKept(setting, c, Refreshed(c, row), row);
  }

  // ================================================================ the same batch twice

  /** After an accepted batch, an aliased row is still unstored and still matches the row it refreshed. */
  lemma AliasStaysAlias(setting: Setting, rows: map<string, Row>, batch: seq<Row>, after: map<string, Row>, i: nat)
    requires WellKeyed(rows) && DistinctIds(batch) && i < |batch| && After(setting, rows, batch, |batch|, after)
    requires Own(setting, rows, batch[i]).Some? && Own(setting, rows, batch[i]).value.id != batch[i].id
    ensures batch[i].id !in after
    ensures var c := Own(setting, rows, batch[i]).value;
            c.id in after && after[c.id] == Refreshed(c, batch[i]) && c.id in MatchIds(setting, after, batch[i])
  {
    var row := batch[i];
    OwnMeans(setting, rows, row);
    var c := Own(setting, rows, row).value;
    assert Target(setting, rows, row) == c.id && Written(setting, rows, row) == Refreshed(c, row);
    MatchesAfterRefresh(setting, c, row);
    forall j | 0 <= j < |batch|
      ensures Target(setting, rows, batch[j]) != row.id
    {
      OwnMeans(setting, rows, batch[j]);
      assert j < i ==> batch[j].id != row.id;
      assert i < j ==> batch[i].id != batch[j].id;
    }
    hide Matches, Refreshed, Own, Written, Target;
  }

  /** Each row of the batch targets the same row again, and writes there what is there already. */
  lemma SameTargetAgain(setting: Setting, rows: map<string, Row>, batch: seq<Row>, after: map<string, Row>, i: nat)
    requires WellKeyed(rows) && WellKeyed(after) && DistinctIds(batch) && i < |batch|
    requires After(setting, rows, batch, |batch|, after)
    requires Canonical(setting, after, batch[i]).Ok?
    ensures Target(setting, after, batch[i]) == Target(setting, rows, batch[i])
    ensures Written(setting, after, batch[i]) == Written(setting, rows, batch[i])
    ensures Own(setting, after, batch[i]).Some?
  {
    var row := batch[i];
    OwnMeans(setting, rows, row);
    OwnMeans(setting, after, row);
    RefreshIdempotent(row, row);
    match Own(setting, rows, row)
    case None => assert after[row.id] == row;
    case Some(c) =>
      RefreshIdempotent(c, row);
      if c.id != row.id {
        AliasStaysAlias(setting, rows, batch, after, i);
        FindMeans(setting, after, row);
      }
      hide Refreshed, MatchIds;
      assert Target(setting, rows, row) == c.id && after[c.id] == Refreshed(c, row);
  }

  /** An accepted batch leaves keyed rows. */
  lemma AfterWellKeyed(setting: Setting, rows: map<string, Row>, batch: seq<Row>, after: map<string, Row>)
    requires WellKeyed(rows) && After(setting, rows, batch, |batch|, after)
    ensures WellKeyed(after)
  {
    forall id | id in after
      ensures after[id].id == id
    {
      if Targeted(setting, rows, batch, |batch|, id) {
        var i :| 0 <= i < |batch| && Target(setting, rows, batch[i]) == id;
        OwnMeans(setting, rows, batch[i]);
      }
    }
  }

  /** Row `k` was written to an archived installment, and now also matches what the batch wrote for row `j`. */
  ghost predicate Clash(setting: Setting, rows: map<string, Row>, batch: seq<Row>, k: int, j: int) {
    && 0 <= k < |batch| && 0 <= j < |batch| && j != k
    && Target(setting, rows, batch[k]) != batch[k].id
    && Matches(setting, Written(setting, rows, batch[j]), batch[k])
  }

  lemma ClashIsAmbiguous(setting: Setting, rows: map<string, Row>, batch: seq<Row>, after: map<string, Row>, k: nat, j: nat)
    requires WellKeyed(rows) && DistinctIds(batch) && After(setting, rows, batch, |batch|, after) && Injective(setting, rows, batch)
    requires Clash(setting, rows, batch, k, j)
    ensures Canonical(setting, after, batch[k]) == Err(AmbiguousArchive)
  {
    var row, id := batch[k], Target(setting, rows, batch[j]);
    AliasStaysAlias(setting, rows, batch, after, k);
    OwnMeans(setting, rows, batch[j]);
    hide Matches, Refreshed, Own;
    assert after[id] == Written(setting, rows, batch[j]) && after[id].id == id;
    assert Target(setting, rows, batch[k]) != Target(setting, rows, batch[j]);
    assert id in MatchIds(setting, after, row);
    hide MatchIds, Target, Written;
    TwoMembers(MatchIds(setting, after, row), id, Target(setting, rows, row));
  }

  /** A row that is ambiguous after the batch was written to its only archived installment, and is still unstored. */
  lemma AmbiguousWasAliased(setting: Setting, rows: map<string, Row>, batch: seq<Row>, after: map<string, Row>, k: nat)
    requires WellKeyed(rows) && WellKeyed(after) && k < |batch|
    requires After(setting, rows, batch, |batch|, after) && Canonical(setting, rows, batch[k]).Ok?
    requires Canonical(setting, after, batch[k]).Err?
    ensures batch[k].id !in after && Target(setting, rows, batch[k]) != batch[k].id
    ensures MatchIds(setting, rows, batch[k]) == {Target(setting, rows, batch[k])} && |MatchIds(setting, after, batch[k])| > 1
  {
    var row := batch[k];
    OwnMeans(setting, rows, row);
    FindMeans(setting, rows, row);
    FindMeans(setting, after, row);
    hide MatchIds, Matches, Written, Find;
    assert after[Target(setting, rows, row)] == Written(setting, rows, row);
  }

  /** A row newly matched was written by the batch. */
  lemma NewMatchIsTargeted(setting: Setting, rows: map<string, Row>, batch: seq<Row>, after: map<string, Row>, row: Row, id: string)
    requires WellKeyed(after) && After(setting, rows, batch, |batch|, after)
    requires id in MatchIds(setting, after, row) && id !in MatchIds(setting, rows, row)
    ensures Targeted(setting, rows, batch, |batch|, id) && id != row.id && Matches(setting, after[id], row)
  {
    hide Matches, Target, Written;
  }

  lemma AmbiguousIsClash(setting: Setting, rows: map<string, Row>, batch: seq<Row>, after: map<string, Row>, k: nat)
    requires WellKeyed(rows) && WellKeyed(after) && k < |batch|
    requires After(setting, rows, batch, |batch|, after) && Canonical(setting, rows, batch[k]).Ok?
    requires Canonical(setting, after, batch[k]).Err?
    ensures exists j :: Clash(setting, rows, batch, k, j)
  {
    AmbiguousWasAliased(setting, rows, batch, after, k);
    var row, c := batch[k], Target(setting, rows, batch[k]);
    hide Matches, Target, Written, Canonical;
    var id := AnotherMember(MatchIds(setting, after, row), c);
    NewMatchIsTargeted(setting, rows, batch, after, row, id);
    hide MatchIds;
    var j :| 0 <= j < |batch| && Target(setting, rows, batch[j]) == id;
    assert Clash(setting, rows, batch, k, j);
  }

  lemma AnotherMember<T>(s: set<T>, a: T) returns (b: T)
    requires |s| > 1
    ensures b in s && b != a
  {
    if s <= {a} {
      SubsetSize(s, {a});
    }
    b :| b in s && b != a;
  }

  /**
   * Applying a batch a second time leaves the rows of the first and inserts nothing. It is refused exactly when a
   * row written to an archived installment the first time also matches another row the batch wrote.
   */
  lemma TwiceIsOnce(l: Ledger, setting: Setting, batch: seq<Row>)
    requires WellKeyed(l.rows) && DistinctIds(batch) && Upserted(l, Some(setting), batch).Ok?
    ensures var once := Upserted(l, Some(setting), batch).value.0;
            match Upserted(once, Some(setting), batch)
            case Err(_) => exists k, j :: Clash(setting, l.rows, batch, k, j)
            case Ok((twice, summary)) =>
              && twice.rows == once.rows && summary.inserted == 0
              && forall k, j :: !Clash(setting, l.rows, batch, k, j)
  {
    BatchWrites(l, setting, batch);
    var once := Upserted(l, Some(setting), batch).value.0;
    AfterWellKeyed(setting, l.rows, batch, once.rows);
    BatchWrites(once, setting, batch);
    SecondTargets(setting, l.rows, batch, once.rows);
    hide Upserted, Target, Written, Clash, Own, Canonical, After;
    if Unambiguous(setting, once.rows, batch, 0) {
      assert Injective(setting, once.rows, batch);
      NoInsertions(setting, once.rows, batch, 0);
      SameAgain(setting, l.rows, batch, once.rows, Upserted(once, Some(setting), batch).value.0.rows);
    }
  }

  /** What each row meets the second time. */
  lemma SecondTargets(setting: Setting, rows: map<string, Row>, batch: seq<Row>, once: map<string, Row>)
    requires WellKeyed(rows) && WellKeyed(once) && DistinctIds(batch) && After(setting, rows, batch, |batch|, once)
    requires Unambiguous(setting, rows, batch, 0) && Injective(setting, rows, batch)
    ensures Unambiguous(setting, once, batch, 0) <==> forall k, j :: !Clash(setting, rows, batch, k, j)
    ensures forall i :: 0 <= i < |batch| && Canonical(setting, once, batch[i]).Ok? ==>
              && Target(setting, once, batch[i]) == Target(setting, rows, batch[i])
              && Written(setting, once, batch[i]) == Written(setting, rows, batch[i])
              && Own(setting, once, batch[i]).Some?
  {
    hide Clash, Target, Written, Own, Canonical, After, Injective;
    forall i | 0 <= i < |batch| && Canonical(setting, once, batch[i]).Ok?
      ensures Target(setting, once, batch[i]) == Target(setting, rows, batch[i])
      ensures Written(setting, once, batch[i]) == Written(setting, rows, batch[i])
      ensures Own(setting, once, batch[i]).Some?
    {
      SameTargetAgain(setting, rows, batch, once, i);
    }
    if k, j :| Clash(setting, rows, batch, k, j) {
      ClashInRange(setting, rows, batch, k, j);
      ClashIsAmbiguous(setting, rows, batch, once, k, j);
    }
    if i :| 0 <= i < |batch| && Canonical(setting, once, batch[i]).Err? {
      AmbiguousIsClash(setting, rows, batch, once, i);
    }
  }

  lemma ClashInRange(setting: Setting, rows: map<string, Row>, batch: seq<Row>, k: int, j: int)
    requires Clash(setting, rows, batch, k, j)
    ensures 0 <= k < |batch| && 0 <= j < |batch|
  {
  }

  lemma SameAgain(setting: Setting, rows: map<string, Row>, batch: seq<Row>, once: map<string, Row>, twice: map<string, Row>)
    requires After(setting, rows, batch, |batch|, once) && After(setting, once, batch, |batch|, twice)
    requires forall i :: 0 <= i < |batch| ==>
               && Target(setting, once, batch[i]) == Target(setting, rows, batch[i])
               && Written(setting, once, batch[i]) == Written(setting, rows, batch[i])
    ensures twice == once
  {
    hide Target, Written;
    forall id
      ensures id in twice <==> id in once
      ensures id in once ==> twice[id] == once[id]
    {
      if Targeted(setting, once, batch, |batch|, id) {
        var i :| 0 <= i < |batch| && Target(setting, once, batch[i]) == id;
        assert Target(setting, rows, batch[i]) == id;
      }
    }
  }

  /** Portal batches: no row brings archive evidence of its own, and no stored pending row has any. */
  ghost predicate PortalBatch(rows: map<string, Row>, batch: seq<Row>) {
    && (forall i :: 0 <= i < |batch| ==> !ArchiveOf(batch[i].raw).Evidence?)
    && (forall id :: id in rows && rows[id].status.Pending? ==> !ArchiveOf(rows[id].raw).Evidence?)
  }

  /** Nothing a portal batch writes becomes a new archived installment. */
  lemma NoNewMatches(setting: Setting, rows: map<string, Row>, batch: seq<Row>, after: map<string, Row>, row: Row, id: string)
    requires WellKeyed(rows) && PortalBatch(rows, batch) && After(setting, rows, batch, |batch|, after)
    requires id in after && Matches(setting, after[id], row)
    ensures id in rows && Matches(setting, rows[id], row)
  {
    if Targeted(setting, rows, batch, |batch|, id) {
      var i :| 0 <= i < |batch| && Target(setting, rows, batch[i]) == id;
      OwnMeans(setting, rows, batch[i]);
      assert after[id] == Written(setting, rows, batch[i]);
      assert ArchiveOf(after[id].raw).Evidence?;
      var c := Own(setting, rows, batch[i]).value;
      assert Recognised(ArchiveOf(c.raw)) && ArchiveOf(c.raw).Evidence? && c.status.Posted?;
      RefreshKeepsEvidence(c, batch[i]);
      MatchesKept(setting, c, after[id], row);
    }
  }

  /** A portal batch is accepted a second time, too. */
  lemma RepeatedPortalBatchAccepted(l: Ledger, setting: Setting, batch: seq<Row>)
    requires WellKeyed(l.rows) && DistinctIds(batch) && Upserted(l, Some(setting), batch).Ok? && PortalBatch(l.rows, batch)
    ensures Upserted(Upserted(l, Some(setting), batch).value.0, Some(setting), batch).Ok?
  {
    BatchWrites(l, setting, batch);
    var once := Upserted(l, Some(setting), batch).value.0;
    AfterWellKeyed(setting, l.rows, batch, once.rows);
    BatchWrites(once, setting, batch);
    hide Upserted;
    forall i | 0 <= i < |batch|
      ensures Canonical(setting, once.rows, batch[i]).Ok?
      ensures Target(setting, once.rows, batch[i]) == Target(setting, l.rows, batch[i])
    {
      StillUnambiguous(setting, l.rows, batch, once.rows, i);
      SameTargetAgain(setting, l.rows, batch, once.rows, i);
    }
    hide Target, Canonical;
    assert Unambiguous(setting, once.rows, batch, 0) && Injective(setting, once.rows, batch);
  }

  lemma StillUnambiguous(setting: Setting, rows: map<string, Row>, batch: seq<Row>, after: map<string, Row>, i: nat)
    requires WellKeyed(rows) && WellKeyed(after) && DistinctIds(batch) && i < |batch|
    requires PortalBatch(rows, batch) && After(setting, rows, batch, |batch|, after) && Canonical(setting, rows, batch[i]).Ok?
    ensures Canonical(setting, after, batch[i]).Ok?
  {
    var row := batch[i];
    OwnMeans(setting, rows, row);
    FindMeans(setting, rows, row);
    FindMeans(setting, after, row);
    if row.id !in after {
      forall id | id in MatchIds(setting, after, row)
        ensures id in MatchIds(setting, rows, row)
      {
        NoNewMatches(setting, rows, batch, after, row, id);
      }
      SubsetSize(MatchIds(setting, after, row), MatchIds(setting, rows, row));
    }
  }

  lemma SubsetSize<T>(a: set<T>, b: set<T>)
    requires a <= b
    ensures |a| <= |b|
  {
    assert b == a + (b - a);
  }

  // ================================================================ after coalescing

  /** A canonical row keeps every frozen field, its status and its archive evidence; only refreshable fields follow the duplicate. */
  lemma CoalescedKeeps(setting: Setting, canonical: Row, duplicate: Row)
    requires Matches(setting, canonical, duplicate)
    ensures var c := Coalesced(canonical, duplicate);
            && SameFrozen(canonical, c) && c.status == canonical.status && c.postedSeenAt == canonical.postedSeenAt
            && ArchiveOf(c.raw) == ArchiveOf(canonical.raw) && ArchiveOf(c.raw).Evidence?
            && c.lastSeen == duplicate.lastSeen && c.chargeDate == duplicate.chargeDate
  {
  }

  /** A successful coalesce removes exactly the duplicates, changes only the canonical rows, and nothing else in the ledger. */
  lemma CoalesceExact(l: Ledger, setting: Setting, pairs: seq<Pair>)
    requires WellKeyed(l.rows) && CoalescedLedger(l, setting, pairs, false).Ok?
    ensures var (after, count) := CoalescedLedger(l, setting, pairs, false).value;
            var validated := Validate(setting, l.rows, pairs).value;
            && after.anomalies == l.anomalies && after.payments == l.payments
            && count == CoalesceCount(|pairs|, |pairs|)
            && CoalescedFrom(l.rows, validated, after.rows)
            && |validated| == |pairs| && DistinctPairs(validated) && WellKeyed(after.rows)
            && forall i :: 0 <= i < |pairs| ==>
                 && CheckedPair(setting, l.rows, validated[i])
                 && validated[i].0.id == pairs[i].canonicalId && validated[i].1.id == pairs[i].duplicateId
                 && !HasPayment(l.payments, validated[i].1.id) && !HasAnomaly(l.anomalies, validated[i].1.id)
  {
    ValidateMeans(setting, l.rows, pairs);
    var validated := Validate(setting, l.rows, pairs).value;
    hide Validate, CheckedPair, CoalescedFrom, CoalesceRows;
    CheckedAreStored(setting, l.rows, validated);
    assert !Depended(l.anomalies, l.payments, validated);
    CoalesceRowsAfter(l.rows, validated);
    CoalescedWellKeyed(l.rows, validated, CoalesceRows(l.rows, validated));
  }

  lemma CheckedAreStored(setting: Setting, rows: map<string, Row>, validated: seq<(Row, Row)>)
    requires forall i :: 0 <= i < |validated| ==> CheckedPair(setting, rows, validated[i])
    ensures forall i :: 0 <= i < |validated| ==> validated[i].0.id in rows
  {
  }

  lemma CoalescedWellKeyed(rows: map<string, Row>, validated: seq<(Row, Row)>, after: map<string, Row>)
    requires WellKeyed(rows) && CoalescedFrom(rows, validated, after)
    ensures WellKeyed(after)
  {
    forall id | id in after
      ensures after[id].id == id
    {
      if IsCanonical(validated, id) {
        var i :| 0 <= i < |validated| && validated[i].0.id == id;
      }
    }
  }

  /** A refused coalesce, or a dry run, changes nothing; a dry run counts what a real run would do. */
  lemma DryRunPredicts(l: Ledger, setting: Setting, pairs: seq<Pair>)
    ensures match CoalescedLedger(l, setting, pairs, false)
            case Err(e) => CoalescedLedger(l, setting, pairs, true) == Err(e)
            case Ok((_, count)) => CoalescedLedger(l, setting, pairs, true) == Ok((l, count.(coalesced := 0)))
  {
  }

  /** A coalesced canonical row matches what it matched before. */
  lemma CoalescedMatches(setting: Setting, canonical: Row, duplicate: Row, row: Row)
    requires Matches(setting, canonical, duplicate)
    ensures Matches(setting, Coalesced(canonical, duplicate), row) <==> Matches(setting, canonical, row)
  {
    CoalescedKeeps(setting, canonical, duplicate);
    MatchesKept(setting, canonical, Coalesced(canonical, duplicate), row);
  }

  /** Coalescing changes nobody's matches. */
  lemma MatchesUnchanged(setting: Setting, rows: map<string, Row>, pairs: seq<(Row, Row)>, after: map<string, Row>, id: string, row: Row)
    requires WellKeyed(rows) && CoalescedFrom(rows, pairs, after) && id in after
    requires forall j :: 0 <= j < |pairs| ==> CheckedPair(setting, rows, pairs[j])
    ensures id in rows && after[id].id == id && (Matches(setting, after[id], row) <==> Matches(setting, rows[id], row))
  {
    if IsCanonical(pairs, id) {
      var j :| 0 <= j < |pairs| && pairs[j].0.id == id;
      assert CheckedPair(setting, rows, pairs[j]);
      CoalescedMatches(setting, pairs[j].0, pairs[j].1, row);
    }
    hide Matches, Coalesced, MatchIds;
  }

  lemma {:induction false} NoInsertions(setting: Setting, rows: map<string, Row>, batch: seq<Row>, k: nat)
    requires k <= |batch| && forall i :: k <= i < |batch| ==> Own(setting, rows, batch[i]).Some?
    ensures Insertions(setting, rows, batch, k) == 0
    decreases |batch| - k
  {
    if k < |batch| {
      NoInsertions(setting, rows, batch, k + 1);
    }
  }

  /**
   * `b` is another scrape of the occurrence in `a`: the same id and everything matching reads of an incoming row.
   * Times, category, memo, booking date and the rest of the raw record may differ.
   */
  predicate SameOccurrence(a: Row, b: Row) {
    && a.id == b.id && a.company == b.company && a.synthetic == b.synthetic && a.status == b.status
    && a.identifier == b.identifier && a.accountId == b.accountId
    && a.amount == b.amount && a.currency == b.currency && a.description == b.description
    && a.installmentNumber == b.installmentNumber && a.installmentTotal == b.installmentTotal
    && a.chargeDate == b.chargeDate && a.originalAmount == b.originalAmount && a.originalCurrency == b.originalCurrency
    && PortalOf(a.raw).(rest := "") == PortalOf(b.raw).(rest := "")
  }

  lemma SameOccurrenceMatches(setting: Setting, archive: Row, a: Row, b: Row)
    requires SameOccurrence(a, b)
    ensures Matches(setting, archive, a) <==> Matches(setting, archive, b)
  {
  }

  lemma SameMatchIds(setting: Setting, rows: map<string, Row>, a: Row, b: Row)
    requires SameOccurrence(a, b)
    ensures MatchIds(setting, rows, a) == MatchIds(setting, rows, b)
  {
    hide Matches;
    forall id | id in rows
      ensures Matches(setting, rows[id], a) <==> Matches(setting, rows[id], b)
    {
      SameOccurrenceMatches(setting, rows[id], a, b);
    }
  }

  /** A removed duplicate, scraped again, resolves to the row that took its place, and to no other. */
  lemma DuplicateFindsCanonical(setting: Setting, rows: map<string, Row>, pairs: seq<(Row, Row)>, after: map<string, Row>, i: nat, row: Row)
    requires WellKeyed(rows) && DistinctPairs(pairs) && i < |pairs| && CoalescedFrom(rows, pairs, after)
    requires forall j :: 0 <= j < |pairs| ==> CheckedPair(setting, rows, pairs[j])
    requires SameOccurrence(pairs[i].1, row)
    ensures row.id !in after && MatchIds(setting, after, row) == {pairs[i].0.id}
  {
    hide Matches, Coalesced;
    var c, d := pairs[i].0, pairs[i].1;
    assert IsDuplicate(pairs, d.id);
    assert CheckedPair(setting, rows, pairs[i]);
    forall id | id in after
      ensures id in MatchIds(setting, after, d) <==> id in MatchIds(setting, rows, d)
    {
      MatchesUnchanged(setting, rows, pairs, after, id, d);
    }
    assert MatchIds(setting, after, d) == {c.id};
    SameMatchIds(setting, after, d, row);
  }

  /** Where a portal row goes that was scraped again. */
  lemma ReplayTarget(setting: Setting, rows: map<string, Row>, pairs: seq<(Row, Row)>, after: map<string, Row>, i: nat, row: Row)
    requires WellKeyed(rows) && WellKeyed(after) && DistinctPairs(pairs) && i < |pairs| && CoalescedFrom(rows, pairs, after)
    requires forall j :: 0 <= j < |pairs| ==> CheckedPair(setting, rows, pairs[j])
    requires SameOccurrence(pairs[i].1, row)
    ensures row.id !in after && Canonical(setting, after, row).Ok?
    ensures pairs[i].0.id in after && Own(setting, after, row) == Some(after[pairs[i].0.id]) && Target(setting, after, row) == pairs[i].0.id
  {
    DuplicateFindsCanonical(setting, rows, pairs, after, i, row);
    hide Matches;
    FindSingle(setting, after, row, pairs[i].0.id);
  }

  /** The row is another scrape of a removed duplicate. */
  ghost predicate IsReplay(pairs: seq<(Row, Row)>, row: Row) {
    exists i :: 0 <= i < |pairs| && SameOccurrence(pairs[i].1, row)
  }

  /** Replayed rows are unambiguous, stand for stored rows, and never for the same one. */
  lemma ReplaysApart(setting: Setting, rows: map<string, Row>, pairs: seq<(Row, Row)>, after: map<string, Row>, a: Row, b: Row)
    requires WellKeyed(rows) && WellKeyed(after) && DistinctPairs(pairs) && CoalescedFrom(rows, pairs, after)
    requires forall j :: 0 <= j < |pairs| ==> CheckedPair(setting, rows, pairs[j])
    requires IsReplay(pairs, a)
    ensures a.id !in after && Canonical(setting, after, a).Ok? && Own(setting, after, a).Some? && Target(setting, after, a) in after
    ensures IsReplay(pairs, b) && a.id != b.id ==> Target(setting, after, a) != Target(setting, after, b)
  {
    hide CheckedPair, Own, Target, Canonical, SameOccurrence, CoalescedFrom, WellKeyed;
    var i :| 0 <= i < |pairs| && SameOccurrence(pairs[i].1, a);
    ReplayTarget(setting, rows, pairs, after, i, a);
    if IsReplay(pairs, b) {
      var j :| 0 <= j < |pairs| && SameOccurrence(pairs[j].1, b);
      ReplayTarget(setting, rows, pairs, after, j, b);
      assert pairs[i].1.id == a.id && pairs[j].1.id == b.id by {
        SameOccurrenceId(pairs[i].1, a);
        SameOccurrenceId(pairs[j].1, b);
      }
    }
  }

  lemma SameOccurrenceId(a: Row, b: Row)
    requires SameOccurrence(a, b)
    ensures a.id == b.id
  {
  }

  /** Every row of the batch that is no replay is unambiguous and writes a row nothing else in the batch writes. */
  ghost predicate OthersFit(setting: Setting, rows: map<string, Row>, pairs: seq<(Row, Row)>, batch: seq<Row>) {
    forall k :: 0 <= k < |batch| && !IsReplay(pairs, batch[k]) ==>
      && Canonical(setting, rows, batch[k]).Ok?
      && forall m :: 0 <= m < |batch| && m != k ==> Target(setting, rows, batch[k]) != Target(setting, rows, batch[m])
  }

  /** The ids of the rows, from the `k`-th on, that stand for no stored row. */
  ghost function FreshIds(setting: Setting, rows: map<string, Row>, batch: seq<Row>, k: nat): set<string> {
    set i | k <= i < |batch| && Own(setting, rows, batch[i]).None? :: batch[i].id
  }

  /** The ids of the rows that are no replay and stand for no stored row. */
  ghost function FreshOthers(setting: Setting, rows: map<string, Row>, pairs: seq<(Row, Row)>, batch: seq<Row>): set<string> {
    set i | 0 <= i < |batch| && !IsReplay(pairs, batch[i]) && Own(setting, rows, batch[i]).None? :: batch[i].id
  }

  lemma FreshIdsStep(setting: Setting, rows: map<string, Row>, batch: seq<Row>, k: nat)
    requires DistinctIds(batch) && k < |batch|
    ensures FreshIds(setting, rows, batch, k)
            == FreshIds(setting, rows, batch, k + 1) + if Own(setting, rows, batch[k]).None? then {batch[k].id} else {}
    ensures batch[k].id !in FreshIds(setting, rows, batch, k + 1)
  {
    hide Own;
  }

  lemma FreshIdsEnd(setting: Setting, rows: map<string, Row>, batch: seq<Row>)
    ensures FreshIds(setting, rows, batch, |batch|) == {}
  {
  }

  lemma {:induction false} InsertionsAreFresh(setting: Setting, rows: map<string, Row>, batch: seq<Row>, k: nat)
    requires DistinctIds(batch) && k <= |batch|
    ensures Insertions(setting, rows, batch, k) == |FreshIds(setting, rows, batch, k)|
    decreases |batch| - k
  {
    hide FreshIds, Own, DistinctIds;
    if k < |batch| {
      InsertionsAreFresh(setting, rows, batch, k + 1);
      FreshIdsStep(setting, rows, batch, k);
    } else {
      FreshIdsEnd(setting, rows, batch);
    }
  }

  /** Keys after an accepted batch. */
  lemma KeysAfter(setting: Setting, rows: map<string, Row>, batch: seq<Row>, after: map<string, Row>)
    requires WellKeyed(rows) && After(setting, rows, batch, |batch|, after)
    ensures after.Keys == rows.Keys + FreshIds(setting, rows, batch, 0)
  {
    forall i | 0 <= i < |batch|
      ensures Own(setting, rows, batch[i]).None? ==> Target(setting, rows, batch[i]) == batch[i].id
      ensures Own(setting, rows, batch[i]).Some? ==> Target(setting, rows, batch[i]) in rows
    {
      OwnMeans(setting, rows, batch[i]);
    }
    hide Own, Target, Written;
    forall id
      ensures id in after <==> id in rows || id in FreshIds(setting, rows, batch, 0)
    {
      if Targeted(setting, rows, batch, |batch|, id) {
        var i :| 0 <= i < |batch| && Target(setting, rows, batch[i]) == id;
      }
      if id in FreshIds(setting, rows, batch, 0) {
        var i :| 0 <= i < |batch| && Own(setting, rows, batch[i]).None? && batch[i].id == id;
        assert Targeted(setting, rows, batch, |batch|, id);
      }
    }
  }

  lemma ReplayAcceptedExactly(setting: Setting, rows: map<string, Row>, pairs: seq<(Row, Row)>, after: map<string, Row>, batch: seq<Row>)
    requires WellKeyed(rows) && WellKeyed(after) && DistinctPairs(pairs) && CoalescedFrom(rows, pairs, after) && DistinctIds(batch)
    requires forall j :: 0 <= j < |pairs| ==> CheckedPair(setting, rows, pairs[j])
    ensures Unambiguous(setting, after, batch, 0) && Injective(setting, after, batch) <==> OthersFit(setting, after, pairs, batch)
  {
    hide CheckedPair, CoalescedFrom, Own, Target, Canonical, IsReplay;
    if OthersFit(setting, after, pairs, batch) {
      forall k | 0 <= k < |batch|
        ensures Canonical(setting, after, batch[k]).Ok?
      {
        if IsReplay(pairs, batch[k]) {
          ReplaysApart(setting, rows, pairs, after, batch[k], batch[k]);
        }
      }
      forall k, m | 0 <= k < |batch| && 0 <= m < |batch| && k != m
        ensures Target(setting, after, batch[k]) != Target(setting, after, batch[m])
      {
        if IsReplay(pairs, batch[k]) && IsReplay(pairs, batch[m]) {
          DistinctAt(batch, k, m);
          ReplaysApart(setting, rows, pairs, after, batch[k], batch[m]);
        }
      }
    }
  }

  lemma DistinctAt(batch: seq<Row>, k: nat, m: nat)
    requires DistinctIds(batch) && k < |batch| && m < |batch| && k != m
    ensures batch[k].id != batch[m].id
  {
    if m < k {
      assert batch[m].id != batch[k].id;
    }
  }

  /**
   * After a coalesce, a batch that brings removed portal rows again, alone or among other rows, is refused only for
   * the other rows: one is ambiguous or writes what another row writes. When accepted it inserts no replayed row.
   */
  lemma ReplayInsertsNothing(l: Ledger, setting: Setting, pairs: seq<Pair>, batch: seq<Row>)
    requires WellKeyed(l.rows) && CoalescedLedger(l, setting, pairs, false).Ok? && DistinctIds(batch)
    ensures var coalesced, validated := CoalescedLedger(l, setting, pairs, false).value.0, Validate(setting, l.rows, pairs).value;
            && (Upserted(coalesced, Some(setting), batch).Ok? <==> OthersFit(setting, coalesced.rows, validated, batch))
            && match Upserted(coalesced, Some(setting), batch)
               case Err(_) => true
               case Ok((after, summary)) =>
                 && (forall k :: 0 <= k < |batch| && IsReplay(validated, batch[k]) ==> batch[k].id !in after.rows)
                 && after.rows.Keys == coalesced.rows.Keys + FreshOthers(setting, coalesced.rows, validated, batch)
                 && summary.inserted == |after.rows.Keys - coalesced.rows.Keys|
  {
    var coalesced, validated := CoalescedLedger(l, setting, pairs, false).value.0, Validate(setting, l.rows, pairs).value;
    CoalesceExact(l, setting, pairs);
    ValidateMeans(setting, l.rows, pairs);
    hide Validate, CoalescedLedger, CheckedPair, CoalescedFrom, Upserted, Own, Target, Unambiguous, Injective, After, IsReplay, OthersFit;
    ReplayAcceptedExactly(setting, l.rows, validated, coalesced.rows, batch);
    BatchWrites(coalesced, setting, batch);
    if Upserted(coalesced, Some(setting), batch).Ok? {
      ReplayKeys(setting, l.rows, validated, coalesced.rows, batch, Upserted(coalesced, Some(setting), batch).value.0.rows);
    }
  }

  lemma OnlyOthersAreFresh(setting: Setting, rows: map<string, Row>, pairs: seq<(Row, Row)>, batch: seq<Row>)
    requires forall k :: 0 <= k < |batch| && IsReplay(pairs, batch[k]) ==> Own(setting, rows, batch[k]).Some?
    ensures FreshIds(setting, rows, batch, 0) == FreshOthers(setting, rows, pairs, batch)
  {
    hide IsReplay, Own;
  }

  lemma ReplayKeys(setting: Setting, rows: map<string, Row>, pairs: seq<(Row, Row)>, coalesced: map<string, Row>, batch: seq<Row>,
                   after: map<string, Row>)
    requires WellKeyed(rows) && WellKeyed(coalesced) && DistinctPairs(pairs) && CoalescedFrom(rows, pairs, coalesced) && DistinctIds(batch)
    requires forall j :: 0 <= j < |pairs| ==> CheckedPair(setting, rows, pairs[j])
    requires After(setting, coalesced, batch, |batch|, after)
    ensures forall k :: 0 <= k < |batch| && IsReplay(pairs, batch[k]) ==> batch[k].id !in after
    ensures after.Keys == coalesced.Keys + FreshOthers(setting, coalesced, pairs, batch)
    ensures Insertions(setting, coalesced, batch, 0) == |after.Keys - coalesced.Keys|
  {
    KeysAfter(setting, coalesced, batch, after);
    InsertionsAreFresh(setting, coalesced, batch, 0);
    FreshIdsAreNew(setting, coalesced, batch);
    hide *;
    assert after.Keys - coalesced.Keys == FreshIds(setting, coalesced, batch, 0);
    forall k | 0 <= k < |batch| && IsReplay(pairs, batch[k])
      ensures batch[k].id !in after && Own(setting, coalesced, batch[k]).Some?
    {
      ReplaysApart(setting, rows, pairs, coalesced, batch[k], batch[k]);
      NotFresh(setting, coalesced, batch, k);
    }
    OnlyOthersAreFresh(setting, coalesced, pairs, batch);
  }

  lemma FreshIdsAreNew(setting: Setting, rows: map<string, Row>, batch: seq<Row>)
    requires WellKeyed(rows)
    ensures FreshIds(setting, rows, batch, 0) !! rows.Keys
  {
    forall i | 0 <= i < |batch| && Own(setting, rows, batch[i]).None?
      ensures batch[i].id !in rows
    {
      OwnMeans(setting, rows, batch[i]);
    }
    hide Own;
  }

  lemma NotFresh(setting: Setting, rows: map<string, Row>, batch: seq<Row>, k: nat)
    requires DistinctIds(batch) && k < |batch| && Own(setting, rows, batch[k]).Some?
    ensures batch[k].id !in FreshIds(setting, rows, batch, 0)
  {
    hide Own;
    forall i | 0 <= i < |batch| && Own(setting, rows, batch[i]).None?
      ensures batch[i].id != batch[k].id
    {
      DistinctAt(batch, i, k);
    }
  }

  /** A batch of replayed rows only, in any order, is accepted, inserts nothing and adds no row. */
  lemma PureReplay(l: Ledger, setting: Setting, pairs: seq<Pair>, batch: seq<Row>)
    requires WellKeyed(l.rows) && CoalescedLedger(l, setting, pairs, false).Ok? && DistinctIds(batch)
    requires forall k :: 0 <= k < |batch| ==> IsReplay(Validate(setting, l.rows, pairs).value, batch[k])
    ensures var coalesced := CoalescedLedger(l, setting, pairs, false).value.0;
            && Upserted(coalesced, Some(setting), batch).Ok?
            && var (after, summary) := Upserted(coalesced, Some(setting), batch).value;
            summary.inserted == 0 && after.rows.Keys == coalesced.rows.Keys
  {
    ReplayInsertsNothing(l, setting, pairs, batch);
    hide Validate, CoalescedLedger, Upserted, IsReplay, Own;
    var coalesced, validated := CoalescedLedger(l, setting, pairs, false).value.0, Validate(setting, l.rows, pairs).value;
    assert FreshOthers(setting, coalesced.rows, validated, batch) == {};
    assert coalesced.rows.Keys - coalesced.rows.Keys == {};
  }
}
