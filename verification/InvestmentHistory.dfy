/** What the store's revisions, pointers and source state amount to over every run. */
module InvestmentHistory {
  import opened Common
  import opened Sorting
  import opened InvestmentRecords
  import T = TransactionIds

  // ---------------------------------------------------------------- revisions

  /** Of consecutive rows with one financial content, only the last. */
  function Distinct(rows: seq<Record>): (r: seq<Record>)
    ensures rows != [] ==> r != [] && r[|r| - 1] == rows[|rows| - 1]
    ensures rows == [] ==> r == []
  {
    if rows == [] then []
    else
      var before, last := Distinct(rows[..|rows| - 1]), rows[|rows| - 1];
      if before != [] && Content(before[|before| - 1]) == Content(last) then before[..|before| - 1] + [last] else before + [last]
  }

  function RowsOf(key: Key, rows: seq<Record>): seq<Record> {
    if rows == [] then []
    else RowsOf(key, rows[..|rows| - 1]) + (if KeyOf(rows[|rows| - 1]) == key then [rows[|rows| - 1]] else [])
  }

  function RevisionsOf(key: Key, revisions: seq<Revision>): seq<Record> {
    if revisions == [] then []
    else
      var last := revisions[|revisions| - 1];
      RevisionsOf(key, revisions[..|revisions| - 1]) + (if last.key == key then [last.record] else [])
  }

  function Current(s: Store, key: Key): seq<Record> {
    if key in s.records then [s.records[key]] else []
  }

  /** A record's replaced versions, oldest first, then the current one. */
  function History(s: Store, key: Key): seq<Record> {
    RevisionsOf(key, s.revisions) + Current(s, key)
  }

  predicate TracksKey(s: Store, stored: seq<Record>, key: Key) {
    && History(s, key) == Distinct(RowsOf(key, stored))
    && (key in s.records <==> RowsOf(key, stored) != [])
  }

  /** The history of every record is that of the rows stored for it. */
  ghost predicate Tracks(s: Store, stored: seq<Record>) {
    forall key :: TracksKey(s, stored, key)
  }

  lemma RowsOfNext(key: Key, rows: seq<Record>, row: Record)
    ensures RowsOf(key, rows + [row]) == if KeyOf(row) == key then RowsOf(key, rows) + [row] else RowsOf(key, rows)
  {
    assert (rows + [row])[..|rows|] == rows;
  }

  lemma RevisionsOfNext(key: Key, revisions: seq<Revision>, revision: Revision)
    ensures RevisionsOf(key, revisions + [revision])
         == if revision.key == key then RevisionsOf(key, revisions) + [revision.record] else RevisionsOf(key, revisions)
  {
    assert (revisions + [revision])[..|revisions|] == revisions;
  }

  lemma DistinctNext(rows: seq<Record>, row: Record)
    ensures var before := Distinct(rows);
      Distinct(rows + [row]) ==
      if before != [] && Content(before[|before| - 1]) == Content(row) then before[..|before| - 1] + [row] else before + [row]
  {
    assert (rows + [row])[..|rows|] == rows;
  }

  lemma OtherUntouched(provider: Provider, s: Store, row: Record, at: int, key: Key)
    requires key != KeyOf(row)
    ensures var u := Upsert(provider, s, row, at);
      && Current(u.0, key) == Current(s, key) && RevisionsOf(key, u.0.revisions) == RevisionsOf(key, s.revisions)
      && KeyOf(u.2) == KeyOf(row) && (key in u.0.records <==> key in s.records)
  {
    if KeyOf(row) in s.records {
      RevisionsOfNext(key, s.revisions, Revision(KeyOf(row), at, s.records[KeyOf(row)]));
    }
    hide RevisionsOf, Content;
  }

  lemma UpsertTracksOther(provider: Provider, s: Store, row: Record, at: int, stored: seq<Record>, key: Key)
    requires TracksKey(s, stored, key) && key != KeyOf(row)
    ensures var u := Upsert(provider, s, row, at); TracksKey(u.0, stored + [u.2], key)
  {
    var u := Upsert(provider, s, row, at);
    OtherUntouched(provider, s, row, at, key);
    RowsOfNext(key, stored, u.2);
    hide Upsert, Distinct, RowsOf, RevisionsOf, Current;
  }

  lemma UpsertTracksNew(provider: Provider, s: Store, row: Record, at: int, stored: seq<Record>)
    requires TracksKey(s, stored, KeyOf(row)) && KeyOf(row) !in s.records
    ensures var u := Upsert(provider, s, row, at); TracksKey(u.0, stored + [u.2], KeyOf(row))
  {
    var key := KeyOf(row);
    RowsOfNext(key, stored, row);
    DistinctNext(RowsOf(key, stored), row);
    hide RowsOf, RevisionsOf, Content;
    assert Distinct(RowsOf(key, stored)) == [];
    hide Distinct;
    assert RevisionsOf(key, s.revisions) == [];
    assert [] + [row] == [row];
  }

  lemma UpsertTracksKnown(provider: Provider, s: Store, row: Record, at: int, stored: seq<Record>)
    requires TracksKey(s, stored, KeyOf(row)) && KeyOf(row) in s.records
    ensures var u := Upsert(provider, s, row, at); TracksKey(u.0, stored + [u.2], KeyOf(row))
  {
    var key, last := KeyOf(row), s.records[KeyOf(row)];
    var merged := Merged(provider, last, row);
    var revisions := RevisionsOf(key, s.revisions);
    RowsOfNext(key, stored, merged);
    DistinctNext(RowsOf(key, stored), merged);
    RevisionsOfNext(key, s.revisions, Revision(key, at, last));
    assert (revisions + [last])[..|revisions|] == revisions;
    hide Distinct, RowsOf, RevisionsOf, Merged, Content;
  }

  lemma UpsertTracks(provider: Provider, s: Store, row: Record, at: int, stored: seq<Record>)
    requires Tracks(s, stored)
    ensures var u := Upsert(provider, s, row, at); Tracks(u.0, stored + [u.2])
  {
    var u := Upsert(provider, s, row, at);
    var more := stored + [u.2];
    forall key ensures TracksKey(u.0, more, key) {
      assert TracksKey(s, stored, key);
      if key != KeyOf(row) {
        UpsertTracksOther(provider, s, row, at, stored, key);
      } else if key in s.records {
        UpsertTracksKnown(provider, s, row, at, stored);
      } else {
        UpsertTracksNew(provider, s, row, at, stored);
      }
    }
  }

  lemma {:induction false} UpsertAllTracks(provider: Provider, s: Store, rows: seq<Record>, at: int, summary: Summary, stored: seq<Record>)
    requires Tracks(s, stored)
    ensures var u := UpsertAll(provider, s, rows, at, summary); Tracks(u.0, stored + u.2)
    decreases |rows|
  {
    if rows == [] {
      assert stored + [] == stored;
    } else {
      var first := Upsert(provider, s, rows[0], at);
      UpsertTracks(provider, s, rows[0], at, stored);
      hide Tracks, Upsert;
      UpsertAllTracks(provider, first.0, rows[1..], at, Counted(summary, first.1), stored + [first.2]);
      var rest := UpsertAll(provider, first.0, rows[1..], at, Counted(summary, first.1)).2;
      assert stored + [first.2] + rest == stored + ([first.2] + rest);
    }
  }

  lemma {:induction false} AppendAllTracks(provider: Provider, s: Store, rows: seq<Record>, at: int, summary: Summary, stored: seq<Record>)
    requires Tracks(s, stored) && AppendAll(provider, s, rows, at, summary).Some?
    ensures var u := AppendAll(provider, s, rows, at, summary).value; Tracks(u.0, stored + u.2)
    decreases |rows|
  {
    if rows == [] {
      assert stored + [] == stored;
    } else {
      var first := Append(provider, s, rows[0], at).value;
      UpsertTracks(provider, s, rows[0], at, stored);
      assert stored + [] == stored;
      assert Tracks(first.0, stored + first.2);
      hide Tracks, Append;
      AppendAllTracks(provider, first.0, rows[1..], at, Counted(summary, first.1), stored + first.2);
      var rest := AppendAll(provider, first.0, rows[1..], at, Counted(summary, first.1)).value.2;
      assert stored + first.2 + rest == stored + (first.2 + rest);
    }
  }

  /** The source, the evidence and the last observation are no part of it. */
  lemma SameRecordsTrack(s: Store, t: Store, stored: seq<Record>)
    requires Tracks(s, stored) && t.records == s.records && t.revisions == s.revisions
    ensures Tracks(t, stored)
  {
    forall key ensures TracksKey(t, stored, key) {
      assert TracksKey(s, stored, key);
      assert History(t, key) == History(s, key);
    }
  }

  lemma WriteTracks(provider: Provider, s: Store, snapshot: Snapshot, stored: seq<Record>)
    requires Tracks(s, stored)
    ensures var w := Write(provider, s, snapshot); Tracks(w.0, stored + w.2)
  {
    var start := Summary(true, 0, 0, 0);
    UpsertAllTracks(provider, s, Rows(snapshot), snapshot.observedAt, start, stored);
    var u := UpsertAll(provider, s, Rows(snapshot), snapshot.observedAt, start);
    hide Tracks, UpsertAll, Rows, AppliedSource;
    SameRecordsTrack(u.0, Write(provider, s, snapshot).0, stored + u.2);
  }

  lemma ApplyTracks(provider: Provider, s: Store, snapshot: Snapshot, stored: seq<Record>)
    requires Tracks(s, stored)
    ensures var a := ApplySnapshot(provider, s, snapshot); Tracks(a.0, stored + a.2)
  {
    assert stored + [] == stored;
    SameRecordsTrack(s, RecordFailure(s, PartlySynced, snapshot.observedAt), stored);
    WriteTracks(provider, s, snapshot, stored);
    hide Tracks, ValidRelations, Incomplete, Outdated, Regresses, Write, RecordFailure;
  }

  lemma SeedTracks(provider: Provider, s: Store, snapshot: Snapshot, sha: string, evidence: string, stored: seq<Record>)
    requires Tracks(s, stored)
    ensures var a := SeedArchive(provider, s, snapshot, sha, evidence); Tracks(a.0, stored + a.2)
  {
    assert stored + [] == stored;
    var seeded := s.(evidence := s.evidence[sha := evidence]);
    var rows := snapshot.products + snapshot.valuations;
    SameRecordsTrack(s, seeded, stored);
    hide Tracks, ValidSeed, AppendAll;
    if AppendAll(provider, seeded, rows, snapshot.observedAt, Summary(true, 0, 0, 0)).Some? {
      AppendAllTracks(provider, seeded, rows, snapshot.observedAt, Summary(true, 0, 0, 0), stored);
    }
  }

  lemma PerformTracks(provider: Provider, s: Store, op: Op, stored: seq<Record>)
    requires Tracks(s, stored)
    ensures var p := Perform(provider, s, op); Tracks(p.0, stored + p.1)
  {
    match op
    case Apply(snapshot) =>
      ApplyTracks(provider, s, snapshot, stored);
      hide Tracks, ApplySnapshot;
    case Fail(status, at) =>
      assert stored + [] == stored;
      SameRecordsTrack(s, RecordFailure(s, status, at), stored);
      hide Tracks, RecordFailure;
    case Seed(snapshot, sha, evidence) =>
      SeedTracks(provider, s, snapshot, sha, evidence, stored);
      hide Tracks, SeedArchive;
  }

  lemma {:induction false} PerformAllTracks(provider: Provider, s: Store, ops: seq<Op>, stored: seq<Record>)
    requires Tracks(s, stored)
    ensures var p := PerformAll(provider, s, ops); Tracks(p.0, stored + p.1)
    decreases |ops|
  {
    if ops == [] {
      assert stored + [] == stored;
    } else {
      PerformTracks(provider, s, ops[0], stored);
      hide Tracks, Perform;
      var first := Perform(provider, s, ops[0]);
      PerformAllTracks(provider, first.0, ops[1..], stored + first.1);
      assert stored + first.1 + PerformAll(provider, first.0, ops[1..]).1 == stored + (first.1 + PerformAll(provider, first.0, ops[1..]).1);
    }
  }

  /** Over every run, a record's revisions followed by its current version are exactly the rows stored for it, with only the last
      of consecutive rows that have one financial content. */
  lemma RevisionsAreHistory(provider: Provider, ops: seq<Op>, key: Key)
    ensures var p := PerformAll(provider, EMPTY, ops);
      && History(p.0, key) == Distinct(RowsOf(key, p.1))
      && (key in p.0.records <==> RowsOf(key, p.1) != [])
  {
    assert Tracks(EMPTY, []);
    PerformAllTracks(provider, EMPTY, ops, []);
    var p := PerformAll(provider, EMPTY, ops);
    assert [] + p.1 == p.1;
    assert TracksKey(p.0, p.1, key);
  }

  /** No two neighbours of a history have the same financial content. */
  lemma {:induction false} NeighboursDiffer(rows: seq<Record>, i: nat)
    requires i + 1 < |Distinct(rows)|
    ensures Content(Distinct(rows)[i]) != Content(Distinct(rows)[i + 1])
    decreases |rows|
  {
    var before, last := Distinct(rows[..|rows| - 1]), rows[|rows| - 1];
    if i + 1 < |before| {
      NeighboursDiffer(rows[..|rows| - 1], i);
    }
  }

  // ---------------------------------------------------------------- what is kept

  /** Nothing is deleted, and success never moves back. */
  predicate Grows(s: Store, t: Store) {
    && s.records.Keys <= t.records.Keys && s.revisions <= t.revisions
    && (s.source.lastSuccessAt.Some? ==> t.source.lastSuccessAt.Some? && s.source.lastSuccessAt.value <= t.source.lastSuccessAt.value)
  }

  lemma {:induction false} UpsertAllGrows(provider: Provider, s: Store, rows: seq<Record>, at: int, summary: Summary)
    ensures var u := UpsertAll(provider, s, rows, at, summary);
      s.records.Keys <= u.0.records.Keys && s.revisions <= u.0.revisions && u.0.source == s.source && u.0.lastApplied == s.lastApplied
    decreases |rows|
  {
    if rows != [] {
      var first := Upsert(provider, s, rows[0], at);
      UpsertAllGrows(provider, first.0, rows[1..], at, Counted(summary, first.1));
    }
  }

  lemma {:induction false} AppendAllGrows(provider: Provider, s: Store, rows: seq<Record>, at: int, summary: Summary)
    requires AppendAll(provider, s, rows, at, summary).Some?
    ensures var u := AppendAll(provider, s, rows, at, summary).value;
      s.records.Keys <= u.0.records.Keys && s.revisions <= u.0.revisions && u.0.source == s.source
    decreases |rows|
  {
    if rows != [] {
      var first := Append(provider, s, rows[0], at).value;
      AppendAllGrows(provider, first.0, rows[1..], at, Counted(summary, first.1));
    }
  }

  lemma ApplyGrows(provider: Provider, s: Store, snapshot: Snapshot)
    ensures Grows(s, ApplySnapshot(provider, s, snapshot).0)
  {
    UpsertAllGrows(provider, s, Rows(snapshot), snapshot.observedAt, Summary(true, 0, 0, 0));
    hide ValidRelations, UpsertAll, Rows, CurrentValuesComplete, Incomplete;
  }

  lemma SeedGrows(provider: Provider, s: Store, snapshot: Snapshot, sha: string, evidence: string)
    ensures Grows(s, SeedArchive(provider, s, snapshot, sha, evidence).0)
  {
    var seeded := s.(evidence := s.evidence[sha := evidence]);
    var rows := snapshot.products + snapshot.valuations;
    if AppendAll(provider, seeded, rows, snapshot.observedAt, Summary(true, 0, 0, 0)).Some? {
      AppendAllGrows(provider, seeded, rows, snapshot.observedAt, Summary(true, 0, 0, 0));
    }
    hide ValidSeed, AppendAll;
  }

  lemma PerformGrows(provider: Provider, s: Store, op: Op)
    ensures Grows(s, Perform(provider, s, op).0)
  {
    match op
    case Apply(snapshot) =>
      ApplyGrows(provider, s, snapshot);
      hide ApplySnapshot, Grows;
    case Fail(_, _) =>
    case Seed(snapshot, sha, evidence) =>
      SeedGrows(provider, s, snapshot, sha, evidence);
      hide SeedArchive, Grows;
  }

  /** Over every run records are never deleted, revisions only added, and the last success never moves back. */
  lemma {:induction false} RunsGrow(provider: Provider, s: Store, ops: seq<Op>)
    ensures Grows(s, PerformAll(provider, s, ops).0)
    decreases |ops|
  {
    if ops != [] {
      PerformGrows(provider, s, ops[0]);
      RunsGrow(provider, Perform(provider, s, ops[0]).0, ops[1..]);
    }
  }

  predicate Refused(provider: Provider, s: Store, op: Op) {
    match op
    case Apply(snapshot) => ApplySnapshot(provider, s, snapshot).1 == Applied(NOTHING) || ApplySnapshot(provider, s, snapshot).1.Rejected?
    case Fail(_, _) => true
    case Seed(snapshot, sha, evidence) => SeedArchive(provider, s, snapshot, sha, evidence).1.Rejected?
  }

  lemma RefusedApply(provider: Provider, s: Store, snapshot: Snapshot)
    requires Refused(provider, s, Apply(snapshot))
    ensures var t := ApplySnapshot(provider, s, snapshot).0; t == s || t == RecordFailure(s, PartlySynced, snapshot.observedAt)
  {
    SummaryApplied(provider, s, Rows(snapshot), snapshot.observedAt, Summary(true, 0, 0, 0));
    hide ValidRelations, UpsertAll, AppliedSource, Rows, RecordFailure, Incomplete, Outdated, Regresses;
  }

  /** An incomplete, invalid, outdated or conflicting input leaves every record and revision as it was. */
  lemma RefusalsKeepRecords(provider: Provider, s: Store, op: Op)
    requires Refused(provider, s, op)
    ensures var t := Perform(provider, s, op).0;
      t.records == s.records && t.revisions == s.revisions && t.source.lastSuccessAt == s.source.lastSuccessAt && t.evidence == s.evidence
  {
    match op
    case Apply(snapshot) =>
      RefusedApply(provider, s, snapshot);
      hide ApplySnapshot;
    case Fail(_, _) =>
    case Seed(snapshot, sha, evidence) =>
      hide ValidSeed, AppendAll;
  }

  lemma {:induction false} SummaryApplied(provider: Provider, s: Store, rows: seq<Record>, at: int, summary: Summary)
    ensures UpsertAll(provider, s, rows, at, summary).1.applied == summary.applied
    decreases |rows|
  {
    if rows != [] {
      var first := Upsert(provider, s, rows[0], at);
      SummaryApplied(provider, first.0, rows[1..], at, Counted(summary, first.1));
    }
  }

  lemma UpsertCounts(provider: Provider, s: Store, row: Record, at: int)
    ensures var u := Upsert(provider, s, row, at);
      && |u.0.records| == |s.records| + (if u.1.Inserted? then 1 else 0)
      && |u.0.revisions| == |s.revisions| + (if u.1.Updated? then 1 else 0)
  {
    var u := Upsert(provider, s, row, at);
    assert u.0.records.Keys == s.records.Keys + {KeyOf(row)};
    assert |u.0.records| == |u.0.records.Keys| && |s.records| == |s.records.Keys|;
    hide Merged, Content;
    if KeyOf(row) in s.records {
      assert u.0.records.Keys == s.records.Keys;
    }
  }

  /** The counts: every row is counted once, an insertion is a new record and an update a new revision. */
  lemma {:induction false} CountsAreExact(provider: Provider, s: Store, rows: seq<Record>, at: int, summary: Summary)
    ensures var u := UpsertAll(provider, s, rows, at, summary);
      && u.1.inserted + u.1.updated + u.1.kept == summary.inserted + summary.updated + summary.kept + |rows|
      && |u.0.records| == |s.records| + u.1.inserted - summary.inserted
      && |u.0.revisions| == |s.revisions| + u.1.updated - summary.updated
    decreases |rows|
  {
    if rows != [] {
      UpsertCounts(provider, s, rows[0], at);
      hide Upsert;
      var first := Upsert(provider, s, rows[0], at);
      CountsAreExact(provider, first.0, rows[1..], at, Counted(summary, first.1));
    }
  }

  // ---------------------------------------------------------------- storing a row again

  lemma ReportLeqTotal()
    ensures TotalOrder(ReportLeq)
  {
  }

  predicate FreshId(reports: seq<Report>, r: Report) {
    forall i :: 0 <= i < |reports| ==> reports[i].id != r.id
  }

  lemma {:induction false} SetFresh(reports: seq<Report>, r: Report)
    requires FreshId(reports, r)
    ensures SetReport(reports, r) == reports + [r]
  {
    if reports != [] {
      SetFresh(reports[1..], r);
    }
  }

  lemma {:induction false} SetAllFresh(done: seq<Report>, rest: seq<Report>)
    requires ValidReports(Some(done + rest))
    ensures SetReports(done, rest) == done + rest
    decreases |rest|
  {
    if rest == [] {
      assert done + [] == done;
    } else {
      assert (done + rest)[|done|] == rest[0];
      assert forall i :: 0 <= i < |done| ==> (done + rest)[i] == done[i];
      SetFresh(done, rest[0]);
      assert done + [rest[0]] + rest[1..] == done + rest;
      SetAllFresh(done + [rest[0]], rest[1..]);
    }
  }

  lemma {:induction false} SetSame(reports: seq<Report>, k: nat)
    requires ValidReports(Some(reports)) && k < |reports|
    ensures SetReport(reports, reports[k]) == reports
  {
    if k > 0 {
      assert reports[1..][k - 1] == reports[k];
      assert forall i :: 0 <= i < |reports| - 1 ==> reports[1..][i] == reports[i + 1];
      SetSame(reports[1..], k - 1);
    }
  }

  lemma {:induction false} SetAllSame(reports: seq<Report>, k: nat)
    requires ValidReports(Some(reports)) && k <= |reports|
    ensures SetReports(reports, reports[k..]) == reports
    decreases |reports| - k
  {
    if k < |reports| {
      SetSame(reports, k);
      assert reports[k..][0] == reports[k] && reports[k..][1..] == reports[k + 1..];
      SetAllSame(reports, k + 1);
    }
  }

  predicate ReportsSorted(r: Record)
    requires r.Product?
  {
    r.reports.Some? ==> Sorted(r.reports.value, ReportLeq)
  }

  /** Merging a product's reports with themselves sorts them and does nothing else. */
  lemma MergedWithSelf(reports: seq<Report>)
    requires ValidReports(Some(reports))
    ensures MergedReports(Some(reports), Some(reports)) == Some(Sort(reports, ReportLeq))
  {
    assert [] + reports == reports;
    SetAllFresh([], reports);
    SetAllSame(reports, 0);
    assert reports[0..] == reports;
  }

  lemma SortedExactly(reports: seq<Report>)
    ensures Sort(reports, ReportLeq) == reports <==> Sorted(reports, ReportLeq)
  {
    ReportLeqTotal();
    SortSorted(reports, ReportLeq);
    if Sorted(reports, ReportLeq) {
      SortedUnique(Sort(reports, ReportLeq), reports, ReportLeq);
    }
  }

  /** Storing a record's current version again makes no revision exactly when its report summaries are sorted. */
  lemma ReapplyExactly(provider: Provider, s: Store, row: Record, at: int)
    requires KeyOf(row) in s.records && s.records[KeyOf(row)] == row && (row.Product? ==> ValidReports(row.reports))
    ensures Upsert(provider, s, row, at).1.Unchanged? <==> (row.Product? ==> ReportsSorted(row))
  {
    if row.Product? && row.reports.Some? {
      MergedWithSelf(row.reports.value);
      SortedExactly(row.reports.value);
    }
    hide Sorted, Sort, MergedReports;
    if row.Product? && row.reports.None? {
      NoReports();
    }
  }

  lemma NoReports()
    ensures MergedReports(None, None) == None
  {
  }

  // ---------------------------------------------------------------- merged reports

  predicate HasId(reports: seq<Report>, id: int) {
    exists i :: 0 <= i < |reports| && reports[i].id == id
  }

  lemma ReportsTail(reports: seq<Report>)
    requires ValidReports(Some(reports)) && reports != []
    ensures ValidReports(Some(reports[1..])) && !HasId(reports[1..], reports[0].id)
  {
    assert forall i :: 0 <= i < |reports| - 1 ==> reports[1..][i] == reports[i + 1];
  }

  lemma HeadOrTail(reports: seq<Report>, x: Report)
    requires reports != []
    ensures x in reports <==> x == reports[0] || x in reports[1..]
    ensures HasId(reports, x.id) <==> x.id == reports[0].id || HasId(reports[1..], x.id)
  {
    assert reports == [reports[0]] + reports[1..];
    assert forall i :: 0 <= i < |reports| - 1 ==> reports[1..][i] == reports[i + 1];
    if HasId(reports[1..], x.id) {
      var i :| 0 <= i < |reports| - 1 && reports[1..][i].id == x.id;
      assert reports[i + 1].id == x.id;
    }
  }

  lemma MemberHasId(reports: seq<Report>, x: Report)
    requires x in reports
    ensures HasId(reports, x.id)
  {
  }

  /** Setting one report replaces the one with its id, or adds it. */
  lemma {:induction false} SetMembers(reports: seq<Report>, r: Report, x: Report)
    requires ValidReports(Some(reports))
    ensures x in SetReport(reports, r) <==> x == r || (x in reports && x.id != r.id)
  {
    if reports != [] {
      ReportsTail(reports);
      HeadOrTail(reports, x);
      if x in reports[1..] { MemberHasId(reports[1..], x); }
      HeadOrTail(SetReport(reports, r), x);
      if reports[0].id == r.id {
        assert SetReport(reports, r)[1..] == reports[1..];
      } else {
        assert SetReport(reports, r)[1..] == SetReport(reports[1..], r);
        SetMembers(reports[1..], r, x);
      }
    }
  }

  lemma {:induction false} SetIds(reports: seq<Report>, r: Report, x: Report)
    ensures HasId(SetReport(reports, r), x.id) <==> x.id == r.id || HasId(reports, x.id)
  {
    if reports == [] {
      assert [r][0].id == r.id;
    } else {
      HeadOrTail(reports, x);
      HeadOrTail(SetReport(reports, r), x);
      if reports[0].id != r.id {
        SetIds(reports[1..], r, x);
        assert SetReport(reports, r)[1..] == SetReport(reports[1..], r);
      } else {
        assert SetReport(reports, r)[1..] == reports[1..];
      }
    }
  }

  lemma {:induction false} SetValid(reports: seq<Report>, r: Report)
    requires ValidReports(Some(reports))
    ensures ValidReports(Some(SetReport(reports, r)))
  {
    if reports != [] {
      ReportsTail(reports);
      if reports[0].id == r.id {
        PrependValid(r, reports[1..]);
      } else {
        SetValid(reports[1..], r);
        SetIds(reports[1..], r, reports[0]);
        PrependValid(reports[0], SetReport(reports[1..], r));
      }
    }
  }

  lemma PrependValid(r: Report, rest: seq<Report>)
    requires ValidReports(Some(rest)) && !HasId(rest, r.id)
    ensures ValidReports(Some([r] + rest))
  {
    var s := [r] + rest;
    forall i, j | 0 <= i < j < |s| ensures s[i].id != s[j].id {
      assert s[j] == rest[j - 1];
      if i > 0 { assert s[i] == rest[i - 1]; }
    }
  }

  lemma {:induction false} SetAllMembers(reports: seq<Report>, more: seq<Report>, x: Report)
    requires ValidReports(Some(reports)) && ValidReports(Some(more))
    ensures x in SetReports(reports, more) <==> x in more || (x in reports && !HasId(more, x.id))
    decreases |more|
  {
    if more != [] {
      var next := SetReport(reports, more[0]);
      ReportsTail(more);
      HeadOrTail(more, x);
      SetMembers(reports, more[0], x);
      SetValid(reports, more[0]);
      hide SetReport, ValidReports;
      SetAllMembers(next, more[1..], x);
      if x in more[1..] { MemberHasId(more[1..], x); }
    }
  }

  /** Merging keeps every incoming report and every earlier one whose id does not come again, sorted. */
  lemma ReportsMerge(previous: seq<Report>, incoming: seq<Report>, x: Report)
    requires ValidReports(Some(previous)) && ValidReports(Some(incoming))
    ensures MergedReports(Some(previous), Some(incoming)).Some?
    ensures var merged := MergedReports(Some(previous), Some(incoming)).value;
      && Sorted(merged, ReportLeq)
      && (x in merged <==> x in incoming || (x in previous && !HasId(incoming, x.id)))
  {
    assert [] + previous == previous;
    SetAllFresh([], previous);
    SetAllMembers(previous, incoming, x);
    var all := SetReports(previous, incoming);
    ReportLeqTotal();
    SortSorted(all, ReportLeq);
    InMultiset(all, x);
    InMultiset(Sort(all, ReportLeq), x);
  }
}
