/** Every product's current-value pointer names a stored valuation of that product, over every run. */
module InvestmentPointers {
  import opened Common
  import opened InvestmentRecords
  import T = TransactionIds

  // ---------------------------------------------------------------- identities

  /** An id of a product of this provider. */
  ghost predicate ProductText(provider: Provider, id: string) {
    exists encodedId :: ':' !in encodedId && id == ProductId(provider, encodedId)
  }

  ghost predicate Identified(provider: Provider, r: Record) {
    match r
    case Product(_, _, _, _, _, _, _, _) => ProductText(provider, r.id)
    case Valuation(_, _, _, _, _, archive, _) =>
      && ProductText(provider, r.productId)
      && if archive.None? then r.id == ValuationId(r.productId, r.asOf) else r.id == ArchiveId(archive.value.entryId)
    case _ => ValidOther(r)
  }

  /** A live valuation of product `p` under id `v`. */
  predicate Names(r: Record, p: string, v: string) {
    r.Valuation? && r.archive.None? && r.productId == p && r.id == v
  }

  lemma NotInMeansWithout(s: string, c: char)
    requires c !in s
    ensures T.Without(s, c)
  {
  }

  lemma NamesPlain(provider: Provider)
    ensures ':' !in ProviderName(provider) && ProviderName(provider) != "sure" && ':' !in "sure"
  {
    assert ProviderName(provider)[0] != 's';
  }

  /** A valuation id reads back as its product. */
  lemma ValuationIdInjective(provider: Provider, p: string, a: Option<string>, q: string, b: Option<string>)
    requires ProductText(provider, p) && ProductText(provider, q) && ValuationId(p, a) == ValuationId(q, b)
    ensures p == q
  {
    var x :| ':' !in x && p == ProductId(provider, x);
    var y :| ':' !in y && q == ProductId(provider, y);
    var name := ProviderName(provider);
    var restA, restB := "valuation" + ":" + a.GetOr("undated"), "valuation" + ":" + b.GetOr("undated");
    NamesPlain(provider);
    NotInMeansWithout(name, ':');
    NotInMeansWithout(x, ':');
    NotInMeansWithout(y, ':');
    T.Regroup(name, x, restA);
    T.Regroup(name, y, restB);
    T.SplitFirst(name, x + ":" + restA, name, y + ":" + restB, ':');
    T.SplitFirst(x, restA, y, restB, ':');
  }

  lemma ArchiveNeverLive(provider: Provider, p: string, a: Option<string>, entryId: string)
    requires ProductText(provider, p)
    ensures ValuationId(p, a) != ArchiveId(entryId)
  {
    if ValuationId(p, a) == ArchiveId(entryId) {
      var x :| ':' !in x && p == ProductId(provider, x);
      NamesPlain(provider);
      NotInMeansWithout(ProviderName(provider), ':');
      NotInMeansWithout("sure", ':');
      var rest := "valuation" + ":" + a.GetOr("undated");
      T.Regroup(ProviderName(provider), x, rest);
      T.SplitFirst(ProviderName(provider), x + ":" + rest, "sure", "entry" + ":" + entryId, ':');
    }
  }

  /** A row under the id of a live valuation is a live valuation of the same product. */
  lemma NamesAgain(provider: Provider, r: Record, next: Record, p: string, v: string)
    requires Identified(provider, r) && Identified(provider, next) && Names(r, p, v) && KeyOf(next) == (Valuations, v)
    ensures Names(next, p, v)
  {
    if next.archive.Some? {
      ArchiveNeverLive(provider, p, r.asOf, next.archive.value.entryId);
    } else {
      ValuationIdInjective(provider, p, r.asOf, next.productId, next.asOf);
    }
  }

  // ---------------------------------------------------------------- the invariant

  predicate Stored(s: Store, p: string, v: string) {
    (Valuations, v) in s.records && Names(s.records[(Valuations, v)], p, v)
  }

  /** Stored already, or still to be written. */
  predicate Supported(s: Store, rest: seq<Record>, p: string, v: string) {
    Stored(s, p, v) || exists r :: r in rest && Names(r, p, v)
  }

  predicate PointerHolds(s: Store, rest: seq<Record>, r: Record) {
    HasCurrent(r) ==> Supported(s, rest, r.id, r.current.value)
  }

  ghost predicate RecordsIdentified(provider: Provider, s: Store) {
    forall key :: key in s.records ==> KeyOf(s.records[key]) == key && Identified(provider, s.records[key])
  }

  ghost predicate RowsIdentified(provider: Provider, rows: seq<Record>) {
    forall r :: r in rows ==> Identified(provider, r)
  }

  ghost predicate Pointers(provider: Provider, s: Store, rest: seq<Record>) {
    && RecordsIdentified(provider, s) && RowsIdentified(provider, rest)
    && (forall key :: key in s.records ==> PointerHolds(s, rest, s.records[key]))
    && (forall r :: r in rest ==> PointerHolds(s, rest, r))
  }

  lemma MergedIdentified(provider: Provider, previous: Record, row: Record)
    requires Identified(provider, row)
    ensures Identified(provider, Merged(provider, previous, row))
  {
  }

  /** Writing a row keeps what was supported supported. */
  lemma UpsertSupports(provider: Provider, s: Store, rows: seq<Record>, at: int, p: string, v: string)
    requires rows != [] && RecordsIdentified(provider, s) && RowsIdentified(provider, rows) && Supported(s, rows, p, v)
    ensures Supported(Upsert(provider, s, rows[0], at).0, rows[1..], p, v)
  {
    var row := rows[0];
    var u := Upsert(provider, s, row, at).0;
    assert Identified(provider, row);
    if KeyOf(row) == (Valuations, v) {
      assert u.records[(Valuations, v)] == row;
      if Stored(s, p, v) {
        NamesAgain(provider, s.records[(Valuations, v)], row, p, v);
      } else {
        var r :| r in rows && Names(r, p, v);
        assert Identified(provider, r);
        NamesAgain(provider, r, row, p, v);
      }
    } else if Stored(s, p, v) {
      assert Stored(u, p, v);
    } else {
      var r :| r in rows && Names(r, p, v);
      assert rows == [row] + rows[1..];
      assert r in rows[1..];
    }
  }

  lemma UpsertIdentified(provider: Provider, s: Store, row: Record, at: int)
    requires RecordsIdentified(provider, s) && Identified(provider, row)
    ensures RecordsIdentified(provider, Upsert(provider, s, row, at).0)
  {
    var u := Upsert(provider, s, row, at).0;
    if KeyOf(row) in s.records {
      MergedIdentified(provider, s.records[KeyOf(row)], row);
    }
    hide Identified, Merged;
  }

  lemma UpsertPointer(provider: Provider, s: Store, rows: seq<Record>, at: int, r: Record)
    requires rows != [] && RecordsIdentified(provider, s) && RowsIdentified(provider, rows) && PointerHolds(s, rows, r)
    ensures PointerHolds(Upsert(provider, s, rows[0], at).0, rows[1..], r)
  {
    if HasCurrent(r) {
      UpsertSupports(provider, s, rows, at, r.id, r.current.value);
    }
  }

  lemma MergedPointer(provider: Provider, s: Store, rest: seq<Record>, previous: Record, row: Record)
    requires PointerHolds(s, rest, previous) && PointerHolds(s, rest, row) && KeyOf(previous) == KeyOf(row)
    ensures PointerHolds(s, rest, Merged(provider, previous, row))
  {
    hide Supported, MergedReports;
  }

  lemma UpsertPointers(provider: Provider, s: Store, rows: seq<Record>, at: int)
    requires rows != [] && Pointers(provider, s, rows)
    ensures Pointers(provider, Upsert(provider, s, rows[0], at).0, rows[1..])
  {
    var row := rows[0];
    var u := Upsert(provider, s, row, at).0;
    UpsertIdentified(provider, s, row, at);
    assert RowsIdentified(provider, rows[1..]);
    forall r | r in rows[1..] ensures PointerHolds(u, rows[1..], r) {
      UpsertPointer(provider, s, rows, at, r);
    }
    forall key | key in u.records ensures PointerHolds(u, rows[1..], u.records[key]) {
      UpsertPointer(provider, s, rows, at, row);
      if key in s.records {
        UpsertPointer(provider, s, rows, at, s.records[key]);
        if key == KeyOf(row) {
          MergedPointer(provider, u, rows[1..], s.records[key], row);
        }
      }
    }
  }

  lemma {:induction false} UpsertAllPointers(provider: Provider, s: Store, rows: seq<Record>, at: int, summary: Summary)
    requires Pointers(provider, s, rows)
    ensures Pointers(provider, UpsertAll(provider, s, rows, at, summary).0, [])
    decreases |rows|
  {
    if rows != [] {
      UpsertPointers(provider, s, rows, at);
      hide Pointers, Upsert;
      var first := Upsert(provider, s, rows[0], at);
      UpsertAllPointers(provider, first.0, rows[1..], at, Counted(summary, first.1));
    }
  }

  // ---------------------------------------------------------------- snapshots and seeds

  lemma RowsValid(provider: Provider, snapshot: Snapshot)
    requires ValidRelations(snapshot, provider)
    ensures RowsIdentified(provider, Rows(snapshot))
  {
    forall r | r in Rows(snapshot) ensures Identified(provider, r) {
      if r in snapshot.products {
        assert ValidProduct(r, provider, snapshot);
      } else if r in snapshot.valuations {
        assert ValidValuation(r, provider, snapshot);
        var p :| p in snapshot.products && p.Product? && p.id == r.productId && p.currency == r.currency;
        assert ValidProduct(p, provider, snapshot);
      } else {
        assert r in snapshot.others;
      }
    }
  }

  /** A snapshot's pointers name valuations of the same snapshot, never archived ones. */
  lemma RowPointers(provider: Provider, s: Store, snapshot: Snapshot, r: Record)
    requires ValidRelations(snapshot, provider) && r in Rows(snapshot)
    ensures PointerHolds(s, Rows(snapshot), r)
  {
    if HasCurrent(r) {
      assert r in snapshot.valuations ==> ValidValuation(r, provider, snapshot);
      assert r in snapshot.others ==> ValidOther(r);
      assert ValidProduct(r, provider, snapshot);
      var v :| v in snapshot.valuations && v.Valuation? && v.productId == r.id && v.id == r.current.value;
      assert ValidValuation(v, provider, snapshot);
      assert v in Rows(snapshot) && Names(v, r.id, r.current.value);
    }
  }

  lemma MoreSupport(provider: Provider, s: Store, rest: seq<Record>)
    requires Pointers(provider, s, []) && RowsIdentified(provider, rest)
    requires forall r :: r in rest ==> PointerHolds(s, rest, r)
    ensures Pointers(provider, s, rest)
  {
    forall key | key in s.records ensures PointerHolds(s, rest, s.records[key]) {
      assert PointerHolds(s, [], s.records[key]);
    }
  }

  lemma SamePointers(provider: Provider, s: Store, t: Store)
    requires Pointers(provider, s, []) && t.records == s.records
    ensures Pointers(provider, t, [])
  {
    forall key | key in t.records ensures PointerHolds(t, [], t.records[key]) {
      assert PointerHolds(s, [], s.records[key]);
    }
  }

  lemma WritePointers(provider: Provider, s: Store, snapshot: Snapshot)
    requires Pointers(provider, s, []) && ValidRelations(snapshot, provider)
    ensures Pointers(provider, Write(provider, s, snapshot).0, [])
  {
    RowsValid(provider, snapshot);
    forall r | r in Rows(snapshot) ensures PointerHolds(s, Rows(snapshot), r) {
      RowPointers(provider, s, snapshot, r);
    }
    hide ValidRelations;
    MoreSupport(provider, s, Rows(snapshot));
    UpsertAllPointers(provider, s, Rows(snapshot), snapshot.observedAt, Summary(true, 0, 0, 0));
    SamePointers(provider, UpsertAll(provider, s, Rows(snapshot), snapshot.observedAt, Summary(true, 0, 0, 0)).0,
                 Write(provider, s, snapshot).0);
  }

  lemma ApplyPointers(provider: Provider, s: Store, snapshot: Snapshot)
    requires Pointers(provider, s, [])
    ensures Pointers(provider, ApplySnapshot(provider, s, snapshot).0, [])
  {
    SamePointers(provider, s, RecordFailure(s, PartlySynced, snapshot.observedAt));
    if ValidRelations(snapshot, provider) {
      WritePointers(provider, s, snapshot);
    }
    hide Pointers, ValidRelations, Incomplete, Outdated, Regresses, Write, RecordFailure;
  }

  predicate NoPointers(rows: seq<Record>) {
    forall r :: r in rows ==> !HasCurrent(r)
  }

  /** The archive adds rows without pointers and replaces none. */
  lemma {:induction false} AppendAllPointers(provider: Provider, s: Store, rows: seq<Record>, at: int, summary: Summary)
    requires Pointers(provider, s, []) && RowsIdentified(provider, rows) && NoPointers(rows)
    requires AppendAll(provider, s, rows, at, summary).Some?
    ensures Pointers(provider, AppendAll(provider, s, rows, at, summary).value.0, [])
    decreases |rows|
  {
    if rows != [] {
      var first := Append(provider, s, rows[0], at).value;
      assert rows[0] in rows;
      MoreSupport(provider, s, [rows[0]]);
      UpsertPointers(provider, s, [rows[0]], at);
      assert [rows[0]][1..] == [];
      assert Pointers(provider, first.0, []);
      hide Pointers, Append, HasCurrent, Identified;
      AppendAllPointers(provider, first.0, rows[1..], at, Counted(summary, first.1));
    }
  }

  lemma SeedRows(provider: Provider, snapshot: Snapshot, sha: string, evidence: string)
    requires ValidSeed(snapshot, provider, sha, evidence)
    ensures RowsIdentified(provider, snapshot.products + snapshot.valuations) && NoPointers(snapshot.products + snapshot.valuations)
  {
    RowsValid(provider, snapshot);
    forall r | r in snapshot.products + snapshot.valuations ensures Identified(provider, r) && !HasCurrent(r) {
      assert r in Rows(snapshot);
      if r in snapshot.products { assert r == snapshot.products[0]; }
    }
  }

  lemma SeedPointers(provider: Provider, s: Store, snapshot: Snapshot, sha: string, evidence: string)
    requires Pointers(provider, s, [])
    ensures Pointers(provider, SeedArchive(provider, s, snapshot, sha, evidence).0, [])
  {
    var seeded := s.(evidence := s.evidence[sha := evidence]);
    var rows := snapshot.products + snapshot.valuations;
    SamePointers(provider, s, seeded);
    if ValidSeed(snapshot, provider, sha, evidence) {
      SeedRows(provider, snapshot, sha, evidence);
      hide Pointers, ValidSeed;
      if AppendAll(provider, seeded, rows, snapshot.observedAt, Summary(true, 0, 0, 0)).Some? {
        AppendAllPointers(provider, seeded, rows, snapshot.observedAt, Summary(true, 0, 0, 0));
      }
      hide AppendAll;
    }
  }

  lemma PerformPointers(provider: Provider, s: Store, op: Op)
    requires Pointers(provider, s, [])
    ensures Pointers(provider, Perform(provider, s, op).0, [])
  {
    match op
    case Apply(snapshot) => ApplyPointers(provider, s, snapshot); hide Pointers, ApplySnapshot;
    case Fail(status, at) => SamePointers(provider, s, RecordFailure(s, status, at)); hide Pointers;
    case Seed(snapshot, sha, evidence) => SeedPointers(provider, s, snapshot, sha, evidence); hide Pointers, SeedArchive;
  }

  lemma {:induction false} PerformAllPointers(provider: Provider, s: Store, ops: seq<Op>)
    requires Pointers(provider, s, [])
    ensures Pointers(provider, PerformAll(provider, s, ops).0, [])
    decreases |ops|
  {
    if ops != [] {
      PerformPointers(provider, s, ops[0]);
      hide Pointers, Perform;
      PerformAllPointers(provider, Perform(provider, s, ops[0]).0, ops[1..]);
    }
  }

  /** After any run, a stored product's pointer names a stored live valuation of that product. */
  lemma CurrentValueIsStored(provider: Provider, ops: seq<Op>, key: Key)
    requires key in PerformAll(provider, EMPTY, ops).0.records && HasCurrent(PerformAll(provider, EMPTY, ops).0.records[key])
    ensures var s := PerformAll(provider, EMPTY, ops).0; Stored(s, s.records[key].id, s.records[key].current.value)
  {
    assert Pointers(provider, EMPTY, []);
    PerformAllPointers(provider, EMPTY, ops);
    var s := PerformAll(provider, EMPTY, ops).0;
    assert PointerHolds(s, [], s.records[key]);
  }
}
