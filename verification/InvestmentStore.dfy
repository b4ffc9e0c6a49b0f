/** The store object: tables changed row by row inside transactions that roll back on an error. */
module InvestmentStore {
  import opened Common
  import opened InvestmentRecords

  class InvestmentStore {
    const provider: Provider
    var records: map<Key, Record>
    var revisions: seq<Revision>
    var source: Source
    var lastApplied: Option<int>
    var evidence: map<string, string>

    ghost function State(): Store
      reads this
    {
      Store(records, revisions, source, lastApplied, evidence)
    }

    constructor (provider: Provider)
      ensures this.provider == provider && State() == EMPTY
    {
      this.provider := provider;
      records, revisions, source, lastApplied, evidence := map[], [], Source(NeverSynced, None, None, false), None, map[];
    }

    method RecordFailure(status: SourceStatus, at: int)
      modifies this`source
      ensures State() == InvestmentRecords.RecordFailure(old(State()), status, at)
    {
      if source.lastAttemptAt.None? || at >= source.lastAttemptAt.value {
        source := source.(status := status, lastAttemptAt := Some(at), inventoryComplete := false);
      }
    }

    method UpsertRecord(row: Record, at: int) returns (outcome: Outcome, ghost stored: Record)
      modifies this`records, this`revisions
      ensures (State(), outcome, stored) == Upsert(provider, old(State()), row, at)
    {
      var key := KeyOf(row);
      outcome := Inserted;
      var merged := row;
      if key in records {
        var previous := records[key];
        merged := Merged(provider, previous, row);
        outcome := if Content(previous) == Content(merged) then Unchanged else Updated;
        if outcome.Updated? {
          revisions := revisions + [Revision(key, at, previous)];
        }
      }
      records := records[key := merged];
      stored := merged;
    }

    method AppendArchiveRecord(row: Record, at: int) returns (outcome: Option<Outcome>, ghost stored: seq<Record>)
      modifies this`records, this`revisions
      ensures outcome.None? <==> Append(provider, old(State()), row, at).None?
      ensures outcome.None? ==> State() == old(State())
      ensures outcome.Some? ==> Append(provider, old(State()), row, at) == Some((State(), outcome.value, stored))
    {
      var key := KeyOf(row);
      stored := [];
      if key !in records {
        ghost var kept;
        var o;
        o, kept := UpsertRecord(row, at);
        stored := [kept];
        return Some(o), stored;
      }
      var previous := records[key];
      if row.Product? {
        if !previous.Product? || previous.provider != provider || previous.currency != row.currency {
          return None, stored;
        }
      } else if Content(previous) != Content(row) {
        return None, stored;
      }
      outcome := Some(Unchanged);
    }

    method ApplySnapshot(snapshot: Snapshot) returns (reply: Reply, ghost stored: seq<Record>)
      modifies this
      ensures (State(), reply, stored) == InvestmentRecords.ApplySnapshot(provider, old(State()), snapshot)
    {
      stored := [];
      if !snapshot.complete || (!snapshot.inventoryComplete && provider != Hapoalim) {
        RecordFailure(PartlySynced, snapshot.observedAt);
        return Applied(NOTHING), stored;
      }
      if !ValidRelations(snapshot, provider) {
        return Rejected, stored;
      }
      if Outdated(provider, Store(records, revisions, source, lastApplied, evidence), snapshot) {
        return Applied(NOTHING), stored;
      }
      if provider != Hapoalim && source.lastSuccessAt.Some? && snapshot.observedAt < source.lastSuccessAt.value {
        return Rejected, stored;
      }
      var summary;
      summary, stored := WriteRows(Rows(snapshot), snapshot.observedAt, Summary(true, 0, 0, 0));
      source := AppliedSource(source, snapshot, provider);
      if provider == Hapoalim {
        lastApplied := Some(snapshot.observedAt);
      }
      reply := Applied(summary);
    }

    method WriteRows(rows: seq<Record>, at: int, start: Summary) returns (summary: Summary, ghost stored: seq<Record>)
      modifies this`records, this`revisions
      ensures (State(), summary, stored) == UpsertAll(provider, old(State()), rows, at, start)
    {
      hide Upsert;
      summary := start;
      stored := [];
      ghost var whole := UpsertAll(provider, State(), rows, at, start);
      var i := 0;
      assert rows[i..] == rows;
      assert stored + whole.2 == whole.2;
      while i < |rows|
        invariant 0 <= i <= |rows|
        invariant var rest := UpsertAll(provider, State(), rows[i..], at, summary); whole == (rest.0, rest.1, stored + rest.2)
      {
        assert rows[i..][0] == rows[i] && rows[i..][1..] == rows[i + 1..];
        ghost var before, counted := State(), summary;
        ghost var done := stored;
        ghost var kept;
        var outcome;
        outcome, kept := UpsertRecord(rows[i], at);
        summary := Counted(summary, outcome);
        stored := stored + [kept];
        ghost var rest := UpsertAll(provider, State(), rows[i + 1..], at, summary);
        assert UpsertAll(provider, before, rows[i..], at, counted) == (rest.0, rest.1, [kept] + rest.2);
        assert done + ([kept] + rest.2) == stored + rest.2;
        i := i + 1;
      }
      assert rows[i..] == [];
      assert stored + [] == stored;
    }

    method SeedArchive(snapshot: Snapshot, sha: string, text: string) returns (reply: Reply, ghost stored: seq<Record>)
      modifies this
      ensures (State(), reply, stored) == InvestmentRecords.SeedArchive(provider, old(State()), snapshot, sha, text)
    {
      stored := [];
      if !ValidSeed(snapshot, provider, sha, text) {
        return Rejected, stored;
      }
      var oldRecords, oldRevisions, oldEvidence := records, revisions, evidence;
      if sha in evidence && evidence[sha] != text {
        return Rejected, stored;
      }
      evidence := evidence[sha := text];
      var summary;
      summary, stored := AppendRows(snapshot.products + snapshot.valuations, snapshot.observedAt, Summary(true, 0, 0, 0));
      if summary.None? {
        // Roll back everything written so far.
        records, revisions, evidence := oldRecords, oldRevisions, oldEvidence;
        return Rejected, [];
      }
      reply := Applied(summary.value);
    }

    /** Stops at the first conflict; the caller rolls back. */
    method AppendRows(rows: seq<Record>, at: int, start: Summary) returns (summary: Option<Summary>, ghost stored: seq<Record>)
      modifies this`records, this`revisions
      ensures summary.None? <==> AppendAll(provider, old(State()), rows, at, start).None?
      ensures summary.Some? ==> AppendAll(provider, old(State()), rows, at, start) == Some((State(), summary.value, stored))
    {
      hide Append;
      var counts := start;
      stored := [];
      ghost var whole := AppendAll(provider, State(), rows, at, start);
      var i := 0;
      assert rows[i..] == rows;
      Joined(whole, []);
      while i < |rows|
        invariant 0 <= i <= |rows|
        invariant whole == After(AppendAll(provider, State(), rows[i..], at, counts), stored)
      {
        assert rows[i..][0] == rows[i] && rows[i..][1..] == rows[i + 1..];
        ghost var done := stored;
        ghost var kept;
        var outcome;
        outcome, kept := AppendArchiveRecord(rows[i], at);
        if outcome.None? {
          return None, stored;
        }
        counts := Counted(counts, outcome.value);
        stored := stored + kept;
        JoinedTwice(AppendAll(provider, State(), rows[i + 1..], at, counts), done, kept);
        i := i + 1;
      }
      assert rows[i..] == [];
      assert stored + [] == stored;
      summary := Some(counts);
    }
  }

  /** The result of the remaining rows, after the rows stored before. */
  function After(rest: Option<(Store, Summary, seq<Record>)>, stored: seq<Record>): Option<(Store, Summary, seq<Record>)> {
    match rest
    case None => None
    case Some(r) => Some((r.0, r.1, stored + r.2))
  }

  lemma Joined(whole: Option<(Store, Summary, seq<Record>)>, none: seq<Record>)
    requires none == []
    ensures After(whole, none) == whole
  {
    if whole.Some? {
      assert none + whole.value.2 == whole.value.2;
    }
  }

  lemma JoinedTwice(rest: Option<(Store, Summary, seq<Record>)>, a: seq<Record>, b: seq<Record>)
    ensures After(After(rest, b), a) == After(rest, a + b)
  {
    if rest.Some? {
      assert a + (b + rest.value.2) == a + b + rest.value.2;
    }
  }
}
