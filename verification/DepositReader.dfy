/** The loops that read deposit histories. */
module DepositReader {
  import opened Common
  import opened DepositGroups

  method AddGroups(groups: seq<Entry>, dimensions: Dimensions, family: Family, amounts: seq<int>) returns (result: seq<Entry>)
    ensures result == AddAll(groups, Entries(dimensions, family, amounts))
  {
    var entries := Entries(dimensions, family, amounts);
    result := groups;
    var column := 0;
    assert entries[column..] == entries;
    while column < |amounts|
      invariant 0 <= column <= |amounts|
      invariant AddAll(result, entries[column..]) == AddAll(groups, entries)
    {
      assert entries[column..][0] == entries[column] && entries[column..][1..] == entries[column + 1..];
      result := Add(result, Key(dimensions, family, column), amounts[column]);
      column := column + 1;
    }
  }

  method AddSums(sums: seq<int>, amounts: seq<int>) returns (result: seq<int>)
    requires |sums| == |amounts|
    ensures result == Added(sums, amounts)
  {
    result := sums;
    var index := 0;
    while index < |amounts|
      invariant 0 <= index <= |amounts| && |result| == |sums| && result[index..] == sums[index..]
      invariant result[..index] + Added(sums[index..], amounts[index..]) == Added(sums, amounts)
    {
      assert sums[index..][0] == sums[index] && sums[index..][1..] == sums[index + 1..];
      assert amounts[index..][0] == amounts[index] && amounts[index..][1..] == amounts[index + 1..];
      ghost var done := result[..index];
      result := result[index := result[index] + amounts[index]];
      index := index + 1;
      assert result[..index] == done + [sums[index - 1] + amounts[index - 1]];
    }
  }

  /** One year: rows into sums and groups, the subtotal aside, then the totals. */
  method ReadYear(r: Response, groups: seq<Entry>, block: Block) returns (result: Option<seq<Entry>>)
    ensures result == ReadBlock(r, groups, block)
  {
    var sums, subtotal, current := Nothing(Columns(r.family)), None, groups;
    ghost var start := Progress(sums, None, groups);
    var i := 0;
    assert block.rows[i..] == block.rows;
    while i < |block.rows|
      invariant 0 <= i <= |block.rows| && Sized(r, Progress(sums, subtotal, current))
      invariant ReadRows(r, start, block.rows) == ReadRows(r, Progress(sums, subtotal, current), block.rows[i..])
    {
      var row := block.rows[i];
      assert block.rows[i..][0] == row && block.rows[i..][1..] == block.rows[i + 1..];
      var amounts := ComponentAmounts(row);
      if amounts.None? || |row.amounts| != Columns(r.family) || row.salary.Malformed? || row.booked.Malformed? {
        return None;
      }
      if IsSubtotal(r.family, row) {
        if subtotal.Some? {
          return None;
        }
        subtotal := amounts;
      } else {
        if !IsDeposit(r.family, row) {
          return None;
        }
        sums := AddSums(sums, amounts.value);
        current := AddGroups(current, DimensionsOf(r, row), r.family, amounts.value);
      }
      i := i + 1;
    }
    var p := Progress(sums, subtotal, current);
    result := if TotalsMatch(block, p) then Some(current) else None;
  }

  /** One history: every year once. */
  method ReadHistory(r: Response, groups: seq<Entry>) returns (result: Option<seq<Entry>>)
    ensures result == ReadBlocks(r, {}, groups, r.blocks)
  {
    hide ReadBlock, ReadRows;
    var years, current := {}, groups;
    var i := 0;
    assert r.blocks[i..] == r.blocks;
    while i < |r.blocks|
      invariant 0 <= i <= |r.blocks|
      invariant ReadBlocks(r, {}, groups, r.blocks) == ReadBlocks(r, years, current, r.blocks[i..])
    {
      var block := r.blocks[i];
      assert r.blocks[i..][0] == block && r.blocks[i..][1..] == r.blocks[i + 1..];
      if !IsFooter(r.family, block) {
        if !ValidYear(block) || block.year.value.value in years || !block.wellFormed || (r.family.Hishtalmut? && block.notIncluded) {
          return None;
        }
        years := years + {block.year.value.value};
        var next := ReadYear(r, current, block);
        if next.None? {
          return None;
        }
        current := next.value;
      }
      i := i + 1;
    }
    result := Some(current);
  }

  method ReadAll(known: set<string>, responses: seq<Response>) returns (result: Option<seq<Entry>>)
    ensures result == ReadResponses(known, {}, [], responses)
  {
    hide ReadBlocks;
    var covered: set<string> := {};
    var groups: seq<Entry> := [];
    var i := 0;
    assert responses[i..] == responses;
    while i < |responses|
      invariant 0 <= i <= |responses|
      invariant ReadResponses(known, {}, [], responses) == ReadResponses(known, covered, groups, responses[i..])
    {
      var r := responses[i];
      assert responses[i..][0] == r && responses[i..][1..] == responses[i + 1..];
      if !r.wellFormed {
        return None;
      }
      var next := ReadHistory(r, groups);
      if next.None? || r.productId in covered || r.productId !in known {
        return None;
      }
      covered := covered + {r.productId};
      groups := next.value;
      i := i + 1;
    }
    result := Some(groups);
  }
}
