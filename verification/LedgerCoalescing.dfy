/** What coalescing reviewed pairs does to a ledger's rows. */
module LedgerCoalescing {
  import opened Common
  import opened LedgerRows
  import opened ArchiveInstallments
  import opened MemoryLedger

  /** A checked pair: both rows are stored, and the duplicate's only archived installment is the canonical row. */
  ghost predicate CheckedPair(setting: Setting, rows: map<string, Row>, pair: (Row, Row)) {
    && pair.0.id in rows && rows[pair.0.id] == pair.0 && pair.1.id in rows && rows[pair.1.id] == pair.1
    && pair.0.id != pair.1.id && Matches(setting, pair.0, pair.1)
    && MatchIds(setting, rows, pair.1) == {pair.0.id}
  }

  ghost predicate DistinctPairs(pairs: seq<(Row, Row)>) {
    && (forall i, j :: 0 <= i < |pairs| && 0 <= j < |pairs| ==> pairs[i].0.id != pairs[j].1.id)
    && (forall i, j :: 0 <= i < j < |pairs| ==> pairs[i].0.id != pairs[j].0.id && pairs[i].1.id != pairs[j].1.id)
  }

  lemma Singleton<T>(s: set<T>, x: T)
    requires x in s && |s| <= 1
    ensures s == {x}
  {
    assert |s - {x}| == 0;
  }

  /** What a row found for `incoming` is worth. */
  lemma FindMeans(setting: Setting, rows: map<string, Row>, incoming: Row)
    requires WellKeyed(rows)
    ensures match Find(setting, rows, incoming)
            case Err(e) => e == AmbiguousArchive && |MatchIds(setting, rows, incoming)| > 1
            case Ok(None) => MatchIds(setting, rows, incoming) == {}
            case Ok(Some(row)) => row.id in rows && rows[row.id] == row && row.id != incoming.id && Matches(setting, row, incoming)
                                  && MatchIds(setting, rows, incoming) == {row.id}
  {
    var ids := MatchIds(setting, rows, incoming);
    if |ids| <= 1 && ids != {} {
      var row := Find(setting, rows, incoming).value.value;
      assert row.id in ids;
      Singleton(ids, row.id);
    }
  }

  lemma {:induction false} PairIdsAt(pairs: seq<Pair>)
    ensures |PairIds(pairs)| == 2 * |pairs|
    ensures forall i :: 0 <= i < |pairs| ==> PairIds(pairs)[2 * i] == pairs[i].canonicalId && PairIds(pairs)[2 * i + 1] == pairs[i].duplicateId
  {
    if pairs != [] {
      PairIdsAt(pairs[1..]);
      var rest := PairIds(pairs[1..]);
      forall i | 0 <= i < |pairs|
        ensures PairIds(pairs)[2 * i] == pairs[i].canonicalId && PairIds(pairs)[2 * i + 1] == pairs[i].duplicateId
      {
        if i > 0 {
          assert PairIds(pairs)[2 * i] == rest[2 * (i - 1)] && PairIds(pairs)[2 * i + 1] == rest[2 * (i - 1) + 1];
        }
      }
    }
  }

  lemma {:induction false} CheckPairsMeans(setting: Setting, rows: map<string, Row>, pairs: seq<Pair>)
    requires WellKeyed(rows) && CheckPairs(setting, rows, pairs).Ok?
    ensures var validated := CheckPairs(setting, rows, pairs).value;
            && |validated| == |pairs|
            && forall i :: 0 <= i < |pairs| ==>
                 && CheckedPair(setting, rows, validated[i])
                 && validated[i].0.id == pairs[i].canonicalId && validated[i].1.id == pairs[i].duplicateId
  {
    hide Matches, MatchIds;
    if pairs != [] {
      FindMeans(setting, rows, rows[pairs[0].duplicateId]);
      CheckPairsMeans(setting, rows, pairs[1..]);
      var validated := CheckPairs(setting, rows, pairs).value;
      var rest := CheckPairs(setting, rows, pairs[1..]).value;
      forall i | 0 <= i < |pairs|
        ensures CheckedPair(setting, rows, validated[i])
        ensures validated[i].0.id == pairs[i].canonicalId && validated[i].1.id == pairs[i].duplicateId
      {
        if i > 0 {
          assert validated[i] == rest[i - 1] && pairs[i] == pairs[1..][i - 1];
        }
      }
    }
  }

  lemma DistinctIdsMakeDistinctPairs(pairs: seq<Pair>, validated: seq<(Row, Row)>)
    requires AllDistinct(PairIds(pairs)) && |validated| == |pairs|
    requires forall i :: 0 <= i < |pairs| ==> validated[i].0.id == pairs[i].canonicalId && validated[i].1.id == pairs[i].duplicateId
    ensures DistinctPairs(validated)
  {
    PairIdsAt(pairs);
    hide PairIds;
    var ids := PairIds(pairs);
    forall i, j | 0 <= i < |pairs| && 0 <= j < |pairs|
      ensures validated[i].0.id != validated[j].1.id
    {
      assert ids[2 * i] != ids[2 * j + 1];
    }
    forall i, j | 0 <= i < j < |pairs|
      ensures validated[i].0.id != validated[j].0.id && validated[i].1.id != validated[j].1.id
    {
      assert ids[2 * i] != ids[2 * j] && ids[2 * i + 1] != ids[2 * j + 1];
    }
  }

  lemma ValidateMeans(setting: Setting, rows: map<string, Row>, pairs: seq<Pair>)
    requires WellKeyed(rows) && Validate(setting, rows, pairs).Ok?
    ensures var validated := Validate(setting, rows, pairs).value;
            && |validated| == |pairs| && DistinctPairs(validated)
            && forall i :: 0 <= i < |pairs| ==>
                 && CheckedPair(setting, rows, validated[i])
                 && validated[i].0.id == pairs[i].canonicalId && validated[i].1.id == pairs[i].duplicateId
  {
    CheckPairsMeans(setting, rows, pairs);
    DistinctIdsMakeDistinctPairs(pairs, CheckPairs(setting, rows, pairs).value);
    hide CheckedPair, CheckPairs, PairIds, DistinctPairs;
  }

  // ---------------------------------------------------------------- the rows afterwards

  ghost predicate IsCanonical(pairs: seq<(Row, Row)>, id: string) {
    exists i :: 0 <= i < |pairs| && pairs[i].0.id == id
  }

  ghost predicate IsDuplicate(pairs: seq<(Row, Row)>, id: string) {
    exists i :: 0 <= i < |pairs| && pairs[i].1.id == id
  }

  /** `after` has lost exactly the duplicates, and only the canonical rows changed. */
  ghost predicate CoalescedFrom(rows: map<string, Row>, pairs: seq<(Row, Row)>, after: map<string, Row>) {
    && (forall id :: id in after <==> id in rows && !IsDuplicate(pairs, id))
    && (forall id :: id in after && !IsCanonical(pairs, id) ==> after[id] == rows[id])
    && (forall i :: 0 <= i < |pairs| ==> pairs[i].0.id in after && after[pairs[i].0.id] == Coalesced(pairs[i].0, pairs[i].1))
  }

  lemma {:induction false} CoalesceRowsAfter(rows: map<string, Row>, pairs: seq<(Row, Row)>)
    requires DistinctPairs(pairs) && forall i :: 0 <= i < |pairs| ==> pairs[i].0.id in rows
    ensures CoalescedFrom(rows, pairs, CoalesceRows(rows, pairs))
    decreases |pairs|
  {
    hide Coalesced;
    if pairs != [] {
      var canonical, duplicate, rest := pairs[0].0, pairs[0].1, pairs[1..];
      var next := rows[canonical.id := Coalesced(canonical, duplicate)] - {duplicate.id};
      forall i | 0 <= i < |rest|
        ensures rest[i].0.id in next && rest[i].0.id != canonical.id && rest[i].1.id != canonical.id
      {
        assert rest[i] == pairs[i + 1];
      }
      assert DistinctPairs(rest) by {
        assert forall i :: 0 <= i < |rest| ==> rest[i] == pairs[i + 1];
      }
      CoalesceRowsAfter(next, rest);
      CoalescedTogether(rows, pairs, next, CoalesceRows(next, rest));
    }
  }

  lemma ConsMembers(pairs: seq<(Row, Row)>, id: string)
    requires pairs != []
    ensures IsDuplicate(pairs, id) <==> id == pairs[0].1.id || IsDuplicate(pairs[1..], id)
    ensures IsCanonical(pairs, id) <==> id == pairs[0].0.id || IsCanonical(pairs[1..], id)
  {
    var rest := pairs[1..];
    if IsDuplicate(rest, id) {
      var i :| 0 <= i < |rest| && rest[i].1.id == id;
      assert pairs[i + 1].1.id == id;
    }
    if IsCanonical(rest, id) {
      var i :| 0 <= i < |rest| && rest[i].0.id == id;
      assert pairs[i + 1].0.id == id;
    }
    if IsDuplicate(pairs, id) {
      var i :| 0 <= i < |pairs| && pairs[i].1.id == id;
      assert i > 0 ==> rest[i - 1].1.id == id;
    }
    if IsCanonical(pairs, id) {
      var i :| 0 <= i < |pairs| && pairs[i].0.id == id;
      assert i > 0 ==> rest[i - 1].0.id == id;
    }
  }

  lemma HeadIsApart(pairs: seq<(Row, Row)>)
    requires pairs != [] && DistinctPairs(pairs)
    ensures !IsCanonical(pairs[1..], pairs[0].0.id) && !IsDuplicate(pairs[1..], pairs[0].0.id)
  {
    assert forall j :: 0 <= j < |pairs| - 1 ==> pairs[1..][j] == pairs[j + 1];
  }

  lemma CoalescedTogether(rows: map<string, Row>, pairs: seq<(Row, Row)>, next: map<string, Row>, after: map<string, Row>)
    requires pairs != [] && DistinctPairs(pairs) && pairs[0].0.id in rows
    requires next == rows[pairs[0].0.id := Coalesced(pairs[0].0, pairs[0].1)] - {pairs[0].1.id}
    requires CoalescedFrom(next, pairs[1..], after)
    ensures CoalescedFrom(rows, pairs, after)
  {
    hide Coalesced, IsDuplicate, IsCanonical;
    forall id
      ensures id in after <==> id in rows && !IsDuplicate(pairs, id)
      ensures id in after && !IsCanonical(pairs, id) ==> after[id] == rows[id]
    {
      ConsMembers(pairs, id);
    }
    HeadIsApart(pairs);
    forall i | 0 <= i < |pairs|
      ensures pairs[i].0.id in after && after[pairs[i].0.id] == Coalesced(pairs[i].0, pairs[i].1)
    {
      if i > 0 {
        assert pairs[i] == pairs[1..][i - 1];
      }
    }
  }
}
