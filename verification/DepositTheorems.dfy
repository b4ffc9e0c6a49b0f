/** Grouping deposits conserves money and does not depend on the order of source rows. */
module DepositTheorems {
  import opened Common
  import opened DepositGroups
  import opened Sorting
  import opened Sums
  import Money

  function Amount(): Entry -> int {
    (e: Entry) => e.cents
  }

  function ForKey(key: Key): Entry -> int {
    (e: Entry) => if e.key == key then e.cents else 0
  }

  function ForProduct(productId: string): Entry -> int {
    (e: Entry) => if e.key.dimensions.productId == productId then e.cents else 0
  }

  function ForColumn(column: nat): Entry -> int {
    (e: Entry) => if e.key.column == column then e.cents else 0
  }

  function Mentions(key: Key): Entry -> bool {
    (e: Entry) => e.key == key
  }

  function Lookup(groups: seq<Entry>, key: Key): Option<int> {
    if groups == [] then None else if groups[0].key == key then Some(groups[0].cents) else Lookup(groups[1..], key)
  }

  predicate DistinctKeys(groups: seq<Entry>) {
    forall i, j :: 0 <= i < j < |groups| ==> groups[i].key != groups[j].key
  }

  // ---------------------------------------------------------------- adding to groups

  lemma {:induction false} AddLookup(groups: seq<Entry>, key: Key, cents: int, other: Key)
    ensures Lookup(Add(groups, key, cents), other)
         == if other == key then Some(Lookup(groups, key).GetOr(0) + cents) else Lookup(groups, other)
  {
    if groups != [] && groups[0].key != key {
      AddLookup(groups[1..], key, cents, other);
    }
  }

  /** A sum over entries that depends on the key and adds up amounts. */
  ghost predicate Additive(f: Entry -> int) {
    forall key: Key, a: int, b: int :: f(Entry(key, a)) + f(Entry(key, b)) == f(Entry(key, a + b))
  }

  lemma SumTail(groups: seq<Entry>, f: Entry -> int)
    requires groups != []
    ensures SumBy(groups, f) == f(groups[0]) + SumBy(groups[1..], f)
  {
    assert groups == [groups[0]] + groups[1..];
    SumJoined([groups[0]], groups[1..], f);
    SumOne(groups[0], f);
  }

  lemma {:induction false} AddSum(groups: seq<Entry>, key: Key, cents: int, f: Entry -> int)
    requires Additive(f)
    ensures SumBy(Add(groups, key, cents), f) == SumBy(groups, f) + f(Entry(key, cents))
  {
    if groups == [] {
      SumOne(Entry(key, cents), f);
    } else {
      SumTail(groups, f);
      SumTail(Add(groups, key, cents), f);
      if groups[0].key == key {
        assert f(Entry(key, groups[0].cents)) + f(Entry(key, cents)) == f(Entry(key, groups[0].cents + cents));
        assert Add(groups, key, cents)[1..] == groups[1..];
      } else {
        AddSum(groups[1..], key, cents, f);
        assert Add(groups, key, cents)[1..] == Add(groups[1..], key, cents);
      }
    }
  }

  lemma {:induction false} AddAllSum(groups: seq<Entry>, more: seq<Entry>, f: Entry -> int)
    requires Additive(f)
    ensures SumBy(AddAll(groups, more), f) == SumBy(groups, f) + SumBy(more, f)
    decreases |more|
  {
    if more != [] {
      AddSum(groups, more[0].key, more[0].cents, f);
      AddAllSum(Add(groups, more[0].key, more[0].cents), more[1..], f);
      SumTail(more, f);
      assert Entry(more[0].key, more[0].cents) == more[0];
    }
  }

  /** A group holds the sum of all amounts added under its key, and exists once one was added. */
  lemma {:induction false} AddAllLookup(groups: seq<Entry>, more: seq<Entry>, key: Key)
    ensures Lookup(AddAll(groups, more), key)
         == if Count(more, Mentions(key)) > 0 then Some(Lookup(groups, key).GetOr(0) + SumBy(more, ForKey(key))) else Lookup(groups, key)
    decreases |more|
  {
    hide Add, Lookup, Count, SumBy, Mentions;
    if more == [] {
      NothingAdded(more, key);
    } else {
      var next := Add(groups, more[0].key, more[0].cents);
      AddLookup(groups, more[0].key, more[0].cents, key);
      AddAllLookup(next, more[1..], key);
      SumTail(more, ForKey(key));
      assert more == [more[0]] + more[1..];
      CountJoined([more[0]], more[1..], Mentions(key));
      CountOne(more[0], key);
      if Count(more[1..], Mentions(key)) == 0 {
        NoneForKey(more[1..], key);
      }
    }
  }

  lemma NothingAdded(more: seq<Entry>, key: Key)
    requires more == []
    ensures Count(more, Mentions(key)) == 0
  {
  }

  lemma CountOne(e: Entry, key: Key)
    ensures Count([e], Mentions(key)) == if e.key == key then 1 else 0
  {
    assert [e][..0] == [];
  }

  lemma {:induction false} NoneForKey(entries: seq<Entry>, key: Key)
    requires Count(entries, Mentions(key)) == 0
    ensures SumBy(entries, ForKey(key)) == 0
  {
    if entries != [] {
      NoneForKey(entries[..|entries| - 1], key);
    }
  }

  lemma {:induction false} AddAllJoined(groups: seq<Entry>, a: seq<Entry>, b: seq<Entry>)
    ensures AddAll(AddAll(groups, a), b) == AddAll(groups, a + b)
    decreases |a|
  {
    if a == [] {
      assert a + b == b;
    } else {
      AddAllJoined(Add(groups, a[0].key, a[0].cents), a[1..], b);
      assert (a + b)[1..] == a[1..] + b;
    }
  }

  // ---------------------------------------------------------------- one group for each key

  lemma {:induction false} LookupFinds(groups: seq<Entry>, key: Key)
    ensures Lookup(groups, key).Some? <==> exists i :: 0 <= i < |groups| && groups[i].key == key
  {
    if groups != [] {
      LookupFinds(groups[1..], key);
      assert forall i :: 0 <= i < |groups| - 1 ==> groups[1..][i] == groups[i + 1];
      if groups[0].key != key && exists i :: 0 <= i < |groups| && groups[i].key == key {
        var i :| 0 <= i < |groups| && groups[i].key == key;
        assert groups[1..][i - 1].key == key;
      }
    }
  }

  lemma DistinctHead(e: Entry, rest: seq<Entry>)
    requires DistinctKeys(rest) && Lookup(rest, e.key).None?
    ensures DistinctKeys([e] + rest)
  {
    LookupFinds(rest, e.key);
    var all := [e] + rest;
    forall i, j | 0 <= i < j < |all|
      ensures all[i].key != all[j].key
    {
      assert all[j] == rest[j - 1];
      assert i > 0 ==> all[i] == rest[i - 1];
    }
  }

  lemma DistinctTail(groups: seq<Entry>)
    requires DistinctKeys(groups) && groups != []
    ensures DistinctKeys(groups[1..]) && Lookup(groups[1..], groups[0].key).None?
  {
    LookupFinds(groups[1..], groups[0].key);
    assert forall i :: 0 <= i < |groups| - 1 ==> groups[1..][i] == groups[i + 1];
  }

  lemma {:induction false} AddDistinct(groups: seq<Entry>, key: Key, cents: int)
    requires DistinctKeys(groups)
    ensures DistinctKeys(Add(groups, key, cents))
  {
    if groups != [] {
      DistinctTail(groups);
      if groups[0].key == key {
        DistinctHead(Entry(key, groups[0].cents + cents), groups[1..]);
      } else {
        AddDistinct(groups[1..], key, cents);
        AddLookup(groups[1..], key, cents, groups[0].key);
        DistinctHead(groups[0], Add(groups[1..], key, cents));
      }
    }
  }

  lemma {:induction false} AddAllDistinct(groups: seq<Entry>, more: seq<Entry>)
    requires DistinctKeys(groups)
    ensures DistinctKeys(AddAll(groups, more))
    decreases |more|
  {
    if more != [] {
      AddDistinct(groups, more[0].key, more[0].cents);
      AddAllDistinct(Add(groups, more[0].key, more[0].cents), more[1..]);
    }
  }

  /** With distinct keys, looking keys up tells the whole map. */
  lemma {:induction false} EntryCounted(groups: seq<Entry>, e: Entry)
    requires DistinctKeys(groups)
    ensures multiset(groups)[e] == if Lookup(groups, e.key) == Some(e.cents) then 1 else 0
  {
    if groups != [] {
      DistinctTail(groups);
      EntryCounted(groups[1..], e);
      assert groups == [groups[0]] + groups[1..];
    }
  }

  lemma SameLookups(a: seq<Entry>, b: seq<Entry>)
    requires DistinctKeys(a) && DistinctKeys(b) && forall key :: Lookup(a, key) == Lookup(b, key)
    ensures multiset(a) == multiset(b)
  {
    hide Lookup;
    forall e
      ensures multiset(a)[e] == multiset(b)[e]
    {
      EntryCounted(a, e);
      EntryCounted(b, e);
    }
  }

  lemma ProductAdditive(productId: string)
    ensures Additive(ForProduct(productId))
  {
  }

  // ---------------------------------------------------------------- what rows contribute

  /** The entries of an accepted deposit row; subtotals contribute nothing. */
  function RowEntries(r: Response, row: Row): seq<Entry> {
    if IsSubtotal(r.family, row) || !IsDeposit(r.family, row) || ComponentAmounts(row).None? then []
    else Entries(DimensionsOf(r, row), r.family, ComponentAmounts(row).value)
  }

  function Deposits(r: Response, rows: seq<Row>): seq<Entry> {
    if rows == [] then [] else RowEntries(r, rows[0]) + Deposits(r, rows[1..])
  }

  function AllDeposits(r: Response, blocks: seq<Block>): seq<Entry> {
    if blocks == [] then [] else Deposits(r, blocks[0].rows) + AllDeposits(r, blocks[1..])
  }

  function Everything(responses: seq<Response>): seq<Entry> {
    if responses == [] then [] else AllDeposits(responses[0], responses[0].blocks) + Everything(responses[1..])
  }

  lemma {:induction false} AddedSum(a: seq<int>, b: seq<int>)
    requires |a| == |b|
    ensures Sum(Added(a, b)) == Sum(a) + Sum(b)
  {
    if a != [] {
      AddedSum(a[1..], b[1..]);
    }
  }

  lemma {:induction false} AddedAt(a: seq<int>, b: seq<int>, i: nat)
    requires |a| == |b| && i < |a|
    ensures Added(a, b)[i] == a[i] + b[i]
  {
    if i > 0 {
      AddedAt(a[1..], b[1..], i - 1);
    }
  }

  lemma {:induction false} SumLast(amounts: seq<int>)
    requires amounts != []
    ensures Sum(amounts) == Sum(amounts[..|amounts| - 1]) + amounts[|amounts| - 1]
  {
    if |amounts| > 1 {
      SumLast(amounts[1..]);
      assert amounts[1..][..|amounts| - 2] == amounts[..|amounts| - 1][1..];
    }
  }

  /** A row's entries carry its amounts. */
  lemma {:induction false} EntriesSum(dimensions: Dimensions, family: Family, amounts: seq<int>)
    ensures SumBy(Entries(dimensions, family, amounts), Amount()) == Sum(amounts)
  {
    if amounts != [] {
      var n := |amounts| - 1;
      EntriesSum(dimensions, family, amounts[..n]);
      assert Entries(dimensions, family, amounts)[..n] == Entries(dimensions, family, amounts[..n]);
      SumLast(amounts);
    }
  }

  lemma {:induction false} EntriesColumn(dimensions: Dimensions, family: Family, amounts: seq<int>, column: nat)
    ensures SumBy(Entries(dimensions, family, amounts), ForColumn(column)) == if column < |amounts| then amounts[column] else 0
  {
    if amounts != [] {
      var n := |amounts| - 1;
      EntriesColumn(dimensions, family, amounts[..n], column);
      assert Entries(dimensions, family, amounts)[..n] == Entries(dimensions, family, amounts[..n]);
    }
  }

  /** A row that can be read at all, apart from a second subtotal. */
  predicate Readable(r: Response, row: Row) {
    && ComponentAmounts(row).Some? && |row.amounts| == Columns(r.family) && row.salary.Parsed? && row.booked.Parsed?
    && (IsSubtotal(r.family, row) || IsDeposit(r.family, row))
  }

  function Subtotals(r: Response): Row -> bool {
    (row: Row) => IsSubtotal(r.family, row)
  }

  /** How one row changes the progress. */
  lemma ReadRowIs(r: Response, p: Progress, row: Row)
    requires Sized(r, p)
    ensures ReadRow(r, p, row).Some? <==> Readable(r, row) && (IsSubtotal(r.family, row) ==> p.subtotal.None?)
    ensures ReadRow(r, p, row).Some? ==>
              var q := ReadRow(r, p, row).value;
              && ComponentAmounts(row).Some?
              && q.groups == AddAll(p.groups, RowEntries(r, row))
              && Sum(q.sums) == Sum(p.sums) + SumBy(RowEntries(r, row), Amount())
              && q.subtotal == (if IsSubtotal(r.family, row) then ComponentAmounts(row) else p.subtotal)
  {
    if ReadRow(r, p, row).Some? && !IsSubtotal(r.family, row) {
      AddedSum(p.sums, ComponentAmounts(row).value);
      EntriesSum(DimensionsOf(r, row), r.family, ComponentAmounts(row).value);
    }
  }

  lemma ReadRowColumn(r: Response, p: Progress, row: Row, column: nat)
    requires Sized(r, p) && ReadRow(r, p, row).Some? && column < Columns(r.family)
    ensures ReadRow(r, p, row).value.sums[column] == p.sums[column] + SumBy(RowEntries(r, row), ForColumn(column))
  {
    if !IsSubtotal(r.family, row) {
      AddedAt(p.sums, ComponentAmounts(row).value, column);
      EntriesColumn(DimensionsOf(r, row), r.family, ComponentAmounts(row).value, column);
    }
  }

  // ---------------------------------------------------------------- a year

  predicate AllReadable(r: Response, rows: seq<Row>) {
    forall row :: row in rows ==> Readable(r, row)
  }

  /** The amounts of the subtotal row that reading meets, if any. */
  function SubtotalOf(r: Response, before: Option<seq<int>>, rows: seq<Row>): Option<seq<int>>
    decreases |rows|
  {
    if rows == [] then before
    else SubtotalOf(r, if IsSubtotal(r.family, rows[0]) then ComponentAmounts(rows[0]) else before, rows[1..])
  }

  lemma CountHead(r: Response, rows: seq<Row>)
    requires rows != []
    ensures Count(rows, Subtotals(r)) == Count(rows[1..], Subtotals(r)) + (if IsSubtotal(r.family, rows[0]) then 1 else 0)
  {
    assert rows == [rows[0]] + rows[1..];
    CountJoined([rows[0]], rows[1..], Subtotals(r));
    assert [rows[0]][..0] == [];
  }

  lemma ReadableHead(r: Response, rows: seq<Row>)
    requires rows != []
    ensures AllReadable(r, rows) <==> Readable(r, rows[0]) && AllReadable(r, rows[1..])
  {
    assert rows == [rows[0]] + rows[1..];
    if Readable(r, rows[0]) && AllReadable(r, rows[1..]) {
      forall row | row in rows ensures Readable(r, row) {
        assert row == rows[0] || row in rows[1..];
      }
    }
  }

  /** Rows are read exactly when each can be read and at most one is a subtotal. */
  lemma {:induction false} ReadRowsExactly(r: Response, p: Progress, rows: seq<Row>)
    requires Sized(r, p)
    ensures ReadRows(r, p, rows).Some? <==>
              AllReadable(r, rows) && Count(rows, Subtotals(r)) + (if p.subtotal.Some? then 1 else 0) <= 1
    decreases |rows|
  {
    if rows != [] {
      ReadRowIs(r, p, rows[0]);
      CountHead(r, rows);
      ReadableHead(r, rows);
      hide ReadRow, Readable, AllReadable, IsSubtotal;
      if ReadRow(r, p, rows[0]).Some? {
        ReadRowsExactly(r, ReadRow(r, p, rows[0]).value, rows[1..]);
      }
    }
  }

  /** What reading rows adds to the groups, the sums and the subtotal. */
  lemma {:induction false} ReadRowsIs(r: Response, p: Progress, rows: seq<Row>)
    requires Sized(r, p) && ReadRows(r, p, rows).Some?
    ensures var q := ReadRows(r, p, rows).value;
      && q.groups == AddAll(p.groups, Deposits(r, rows))
      && Sum(q.sums) == Sum(p.sums) + SumBy(Deposits(r, rows), Amount())
      && q.subtotal == SubtotalOf(r, p.subtotal, rows)
    decreases |rows|
  {
    if rows != [] {
      ReadRowIs(r, p, rows[0]);
      hide ReadRow, RowEntries, IsSubtotal, Sum;
      ReadRowsIs(r, ReadRow(r, p, rows[0]).value, rows[1..]);
      AddAllJoined(p.groups, RowEntries(r, rows[0]), Deposits(r, rows[1..]));
      SumJoined(RowEntries(r, rows[0]), Deposits(r, rows[1..]), Amount());
    }
  }

  lemma {:induction false} ReadRowsColumn(r: Response, p: Progress, rows: seq<Row>, column: nat)
    requires Sized(r, p) && ReadRows(r, p, rows).Some? && column < Columns(r.family)
    ensures ReadRows(r, p, rows).value.sums[column] == p.sums[column] + SumBy(Deposits(r, rows), ForColumn(column))
    decreases |rows|
  {
    if rows != [] {
      ReadRowColumn(r, p, rows[0], column);
      hide ReadRow, RowEntries;
      ReadRowsColumn(r, ReadRow(r, p, rows[0]).value, rows[1..], column);
      SumJoined(RowEntries(r, rows[0]), Deposits(r, rows[1..]), ForColumn(column));
    }
  }

  /** Without subtotal rows the subtotal stays as it was. */
  lemma {:induction false} NoSubtotal(r: Response, before: Option<seq<int>>, rows: seq<Row>)
    requires Count(rows, Subtotals(r)) == 0
    ensures SubtotalOf(r, before, rows) == before && forall row :: row in rows ==> !IsSubtotal(r.family, row)
    decreases |rows|
  {
    if rows != [] {
      CountHead(r, rows);
      hide IsSubtotal;
      NoSubtotal(r, before, rows[1..]);
      assert rows == [rows[0]] + rows[1..];
    }
  }

  /** The only subtotal row of a year decides. */
  lemma {:induction false} OneSubtotal(r: Response, before: Option<seq<int>>, rows: seq<Row>, row: Row)
    requires Count(rows, Subtotals(r)) <= 1 && row in rows && IsSubtotal(r.family, row)
    ensures SubtotalOf(r, before, rows) == ComponentAmounts(row)
    decreases |rows|
  {
    CountHead(r, rows);
    hide IsSubtotal, ComponentAmounts;
    assert rows == [rows[0]] + rows[1..];
    if row in rows[1..] {
      if Count(rows[1..], Subtotals(r)) == 0 {
        NoSubtotal(r, before, rows[1..]);
      }
      OneSubtotal(r, before, rows[1..], row);
    } else {
      NoSubtotal(r, ComponentAmounts(row), rows[1..]);
    }
  }

  lemma {:induction false} SomeSubtotal(r: Response, rows: seq<Row>) returns (row: Row)
    requires Count(rows, Subtotals(r)) > 0
    ensures row in rows && IsSubtotal(r.family, row)
    decreases |rows|
  {
    CountHead(r, rows);
    hide IsSubtotal;
    if IsSubtotal(r.family, rows[0]) { row := rows[0]; } else { row := SomeSubtotal(r, rows[1..]); }
  }

  /** A year's deposits add up to its total, component by component to a subtotal row if there is one. */
  predicate Balanced(r: Response, block: Block) {
    Cents(block.total) == Some(SumBy(Deposits(r, block.rows), Amount())) && SubtotalsMatch(r, block.rows)
  }

  predicate SubtotalsMatch(r: Response, rows: seq<Row>) {
    forall row :: row in rows && IsSubtotal(r.family, row) ==> MatchesColumns(r, rows, row)
  }

  predicate MatchesColumns(r: Response, rows: seq<Row>, row: Row) {
    && ComponentAmounts(row).Some? && |ComponentAmounts(row).value| == Columns(r.family)
    && forall column :: 0 <= column < Columns(r.family) ==> ComponentAmounts(row).value[column] == SumBy(Deposits(r, rows), ForColumn(column))
  }

  predicate Acceptable(r: Response, block: Block) {
    AllReadable(r, block.rows) && Count(block.rows, Subtotals(r)) <= 1 && Balanced(r, block)
  }

  function Fresh(r: Response, groups: seq<Entry>): (p: Progress)
    ensures Sized(r, p)
  {
    Progress(Nothing(Columns(r.family)), None, groups)
  }

  lemma {:induction false} NothingSums(n: nat)
    ensures Sum(Nothing(n)) == 0
  {
    if n > 0 {
      NothingSums(n - 1);
      assert Nothing(n)[1..] == Nothing(n - 1);
    }
  }

  lemma SumsMatch(r: Response, groups: seq<Entry>, rows: seq<Row>, row: Row)
    requires ReadRows(r, Fresh(r, groups), rows).Some? && row in rows && Readable(r, row)
    ensures ComponentAmounts(row) == Some(ReadRows(r, Fresh(r, groups), rows).value.sums) <==> MatchesColumns(r, rows, row)
  {
    var sums := ReadRows(r, Fresh(r, groups), rows).value.sums;
    var amounts := ComponentAmounts(row).value;
    hide ReadRows, Deposits, ComponentAmounts;
    forall column | 0 <= column < Columns(r.family) ensures sums[column] == SumBy(Deposits(r, rows), ForColumn(column)) {
      ReadRowsColumn(r, Fresh(r, groups), rows, column);
    }
    if MatchesColumns(r, rows, row) {
      assert amounts == sums;
    }
  }

  lemma SubtotalsAgree(r: Response, groups: seq<Entry>, rows: seq<Row>)
    requires ReadRows(r, Fresh(r, groups), rows).Some?
    ensures var q := ReadRows(r, Fresh(r, groups), rows).value;
      (q.subtotal.Some? ==> q.subtotal.value == q.sums) <==> SubtotalsMatch(r, rows)
  {
    ReadRowsExactly(r, Fresh(r, groups), rows);
    ReadRowsIs(r, Fresh(r, groups), rows);
    hide ReadRows, Deposits, IsSubtotal, Readable, MatchesColumns, ComponentAmounts;
    if Count(rows, Subtotals(r)) == 0 {
      NoSubtotal(r, None, rows);
    } else {
      var row := SomeSubtotal(r, rows);
      OneSubtotal(r, None, rows, row);
      assert Readable(r, row);
      SumsMatch(r, groups, rows, row);
      forall other | other in rows && IsSubtotal(r.family, other) ensures MatchesColumns(r, rows, other) <==> MatchesColumns(r, rows, row) {
        OneSubtotal(r, None, rows, other);
        assert Readable(r, other);
        SumsMatch(r, groups, rows, other);
      }
    }
  }

  /** A year is accepted exactly when it is acceptable, and then adds exactly its deposits. */
  lemma ReadBlockExactly(r: Response, groups: seq<Entry>, block: Block)
    ensures ReadBlock(r, groups, block) == if Acceptable(r, block) then Some(AddAll(groups, Deposits(r, block.rows))) else None
  {
    hide ReadRows, AllReadable, Deposits, SubtotalsMatch, Sum, SubtotalOf, SumBy, Count, AddAll, Cents;
    ReadRowsExactly(r, Fresh(r, groups), block.rows);
    if ReadRows(r, Fresh(r, groups), block.rows).Some? {
      NothingSums(Columns(r.family));
      ReadRowsIs(r, Fresh(r, groups), block.rows);
      SubtotalsAgree(r, groups, block.rows);
    }
  }

  // ---------------------------------------------------------------- histories

  /** Every dated year is well formed and accepted, and no year comes twice. */
  predicate AcceptableBlocks(r: Response, years: set<string>, blocks: seq<Block>)
    decreases |blocks|
  {
    if blocks == [] then true
    else if IsFooter(r.family, blocks[0]) then AcceptableBlocks(r, years, blocks[1..])
    else
      && ValidYear(blocks[0]) && blocks[0].year.value.value !in years && blocks[0].wellFormed
      && !(r.family.Hishtalmut? && blocks[0].notIncluded) && Acceptable(r, blocks[0])
      && AcceptableBlocks(r, years + {blocks[0].year.value.value}, blocks[1..])
  }

  /** The annual totals of a history in cents. */
  function AnnualTotals(r: Response, blocks: seq<Block>): int {
    if blocks == [] then 0
    else (if IsFooter(r.family, blocks[0]) then 0 else Cents(blocks[0].total).GetOr(0)) + AnnualTotals(r, blocks[1..])
  }

  lemma {:induction false} ReadBlocksExactly(r: Response, years: set<string>, groups: seq<Entry>, blocks: seq<Block>)
    ensures ReadBlocks(r, years, groups, blocks)
         == if AcceptableBlocks(r, years, blocks) then Some(AddAll(groups, AllDeposits(r, blocks))) else None
    decreases |blocks|
  {
    if blocks != [] {
      var block := blocks[0];
      ReadBlockExactly(r, groups, block);
      hide ReadBlock, Acceptable, ValidYear;
      if IsFooter(r.family, block) {
        ReadBlocksExactly(r, years, groups, blocks[1..]);
        assert Deposits(r, block.rows) == [];
        assert AllDeposits(r, blocks) == [] + AllDeposits(r, blocks[1..]) == AllDeposits(r, blocks[1..]);
      } else if Acceptable(r, block) && block.year.Parsed? && block.year.value.Some? {
        var next := AddAll(groups, Deposits(r, block.rows));
        ReadBlocksExactly(r, years + {block.year.value.value}, next, blocks[1..]);
        AddAllJoined(groups, Deposits(r, block.rows), AllDeposits(r, blocks[1..]));
      } else if !Acceptable(r, block) {
      } else {
        NoYear(block);
      }
    }
  }

  lemma NoYear(block: Block)
    ensures ValidYear(block) ==> block.year.Parsed? && block.year.value.Some?
  {
  }

  lemma {:induction false} BlocksConserve(r: Response, years: set<string>, blocks: seq<Block>)
    requires AcceptableBlocks(r, years, blocks)
    ensures SumBy(AllDeposits(r, blocks), Amount()) == AnnualTotals(r, blocks)
    decreases |blocks|
  {
    if blocks != [] {
      hide Acceptable, Deposits;
      SumJoined(Deposits(r, blocks[0].rows), AllDeposits(r, blocks[1..]), Amount());
      if IsFooter(r.family, blocks[0]) {
        BlocksConserve(r, years, blocks[1..]);
        FooterEmpty(r, blocks[0]);
      } else {
        BlocksConserve(r, years + {blocks[0].year.value.value}, blocks[1..]);
        BlockConserves(r, blocks[0]);
      }
    }
  }

  lemma FooterEmpty(r: Response, block: Block)
    requires IsFooter(r.family, block)
    ensures SumBy(Deposits(r, block.rows), Amount()) == 0
  {
  }

  lemma BlockConserves(r: Response, block: Block)
    requires Acceptable(r, block)
    ensures SumBy(Deposits(r, block.rows), Amount()) == Cents(block.total).GetOr(0)
  {
  }

  // ---------------------------------------------------------------- all responses

  predicate AcceptableResponses(known: set<string>, covered: set<string>, responses: seq<Response>)
    decreases |responses|
  {
    if responses == [] then true
    else
      && responses[0].wellFormed && AcceptableBlocks(responses[0], {}, responses[0].blocks)
      && responses[0].productId !in covered && responses[0].productId in known
      && AcceptableResponses(known, covered + {responses[0].productId}, responses[1..])
  }

  lemma {:induction false} ReadResponsesExactly(known: set<string>, covered: set<string>, groups: seq<Entry>, responses: seq<Response>)
    ensures ReadResponses(known, covered, groups, responses)
         == if AcceptableResponses(known, covered, responses) then Some(AddAll(groups, Everything(responses))) else None
    decreases |responses|
  {
    if responses != [] {
      var r := responses[0];
      ReadBlocksExactly(r, {}, groups, r.blocks);
      hide ReadBlocks, AcceptableBlocks, AllDeposits;
      var next := AddAll(groups, AllDeposits(r, r.blocks));
      ReadResponsesExactly(known, covered + {r.productId}, next, responses[1..]);
      AddAllJoined(groups, AllDeposits(r, r.blocks), Everything(responses[1..]));
    }
  }

  /** Each published group holds exactly the amounts of the deposit rows with its dimensions, and there is exactly one for every such key. */
  lemma GroupsAreSums(known: set<string>, responses: seq<Response>, key: Key)
    requires ReadResponses(known, {}, [], responses).Some?
    ensures var groups := ReadResponses(known, {}, [], responses).value;
      && DistinctKeys(groups)
      && Lookup(groups, key) == if Count(Everything(responses), Mentions(key)) > 0 then Some(SumBy(Everything(responses), ForKey(key))) else None
  {
    ReadResponsesExactly(known, {}, [], responses);
    AddAllLookup([], Everything(responses), key);
    AddAllDistinct([], Everything(responses));
  }

  // ---------------------------------------------------------------- conservation

  lemma {:induction false} DepositsOfProduct(r: Response, rows: seq<Row>, productId: string)
    ensures SumBy(Deposits(r, rows), ForProduct(productId)) == if r.productId == productId then SumBy(Deposits(r, rows), Amount()) else 0
  {
    if rows != [] {
      DepositsOfProduct(r, rows[1..], productId);
      SumJoined(RowEntries(r, rows[0]), Deposits(r, rows[1..]), ForProduct(productId));
      SumJoined(RowEntries(r, rows[0]), Deposits(r, rows[1..]), Amount());
      RowOfProduct(r, rows[0], productId);
    }
  }

  lemma RowOfProduct(r: Response, row: Row, productId: string)
    ensures SumBy(RowEntries(r, row), ForProduct(productId)) == if r.productId == productId then SumBy(RowEntries(r, row), Amount()) else 0
  {
    var entries := RowEntries(r, row);
    assert forall i :: 0 <= i < |entries| ==> entries[i].key.dimensions.productId == r.productId;
    if r.productId == productId {
      SumSame(entries, ForProduct(productId), Amount());
    } else {
      SumZero(entries, ForProduct(productId));
    }
  }

  lemma {:induction false} HistoryOfProduct(r: Response, blocks: seq<Block>, productId: string)
    ensures SumBy(AllDeposits(r, blocks), ForProduct(productId)) == if r.productId == productId then SumBy(AllDeposits(r, blocks), Amount()) else 0
  {
    if blocks != [] {
      HistoryOfProduct(r, blocks[1..], productId);
      DepositsOfProduct(r, blocks[0].rows, productId);
      hide Deposits;
      SumJoined(Deposits(r, blocks[0].rows), AllDeposits(r, blocks[1..]), ForProduct(productId));
      SumJoined(Deposits(r, blocks[0].rows), AllDeposits(r, blocks[1..]), Amount());
    }
  }

  /** The annual totals of the history of one product. */
  function ProductTotals(responses: seq<Response>, productId: string): int {
    if responses == [] then 0
    else (if responses[0].productId == productId then AnnualTotals(responses[0], responses[0].blocks) else 0) + ProductTotals(responses[1..], productId)
  }

  lemma {:induction false} EverythingOfProduct(known: set<string>, covered: set<string>, responses: seq<Response>, productId: string)
    requires AcceptableResponses(known, covered, responses)
    ensures SumBy(Everything(responses), ForProduct(productId)) == ProductTotals(responses, productId)
    decreases |responses|
  {
    if responses != [] {
      var r := responses[0];
      EverythingOfProduct(known, covered + {r.productId}, responses[1..], productId);
      HistoryOfProduct(r, r.blocks, productId);
      BlocksConserve(r, {}, r.blocks);
      hide AllDeposits, AcceptableBlocks, AnnualTotals;
      SumJoined(AllDeposits(r, r.blocks), Everything(responses[1..]), ForProduct(productId));
    }
  }

  /** For every product, the groups published add up to exactly the annual totals its provider stated. */
  lemma MoneyConserved(known: set<string>, responses: seq<Response>, productId: string)
    requires ReadResponses(known, {}, [], responses).Some?
    ensures SumBy(ReadResponses(known, {}, [], responses).value, ForProduct(productId)) == ProductTotals(responses, productId)
  {
    ReadResponsesExactly(known, {}, [], responses);
    EverythingOfProduct(known, {}, responses, productId);
    ProductAdditive(productId);
    AddAllSum([], Everything(responses), ForProduct(productId));
  }

  // ---------------------------------------------------------------- order of rows

  lemma DepositsWithout(r: Response, rows: seq<Row>, k: nat)
    requires k < |rows|
    ensures multiset(Deposits(r, rows)) == multiset(Deposits(r, rows[..k] + rows[k + 1..])) + multiset(RowEntries(r, rows[k]))
  {
    hide RowEntries;
    assert rows == rows[..k] + ([rows[k]] + rows[k + 1..]);
    DepositsJoined(r, rows[..k], [rows[k]] + rows[k + 1..]);
    DepositsJoined(r, rows[..k], rows[k + 1..]);
    assert ([rows[k]] + rows[k + 1..])[1..] == rows[k + 1..];
  }

  lemma DepositsHead(r: Response, row: Row, rows: seq<Row>)
    ensures Deposits(r, [row] + rows) == RowEntries(r, row) + Deposits(r, rows)
  {
    assert ([row] + rows)[1..] == rows;
    hide RowEntries;
  }

  lemma {:induction false} DepositsJoined(r: Response, a: seq<Row>, b: seq<Row>)
    ensures Deposits(r, a + b) == Deposits(r, a) + Deposits(r, b)
  {
    hide RowEntries, Deposits;
    if a == [] {
      DepositsNone(r, a);
      assert a + b == b;
    } else {
      DepositsJoined(r, a[1..], b);
      DepositsHead(r, a[0], a[1..]);
      DepositsHead(r, a[0], a[1..] + b);
      Prefix(a, b);
    }
  }

  lemma DepositsNone(r: Response, rows: seq<Row>)
    requires rows == []
    ensures Deposits(r, rows) == []
  {
  }

  lemma Prefix(a: seq<Row>, b: seq<Row>)
    requires a != []
    ensures a == [a[0]] + a[1..] && a + b == [a[0]] + (a[1..] + b)
  {
  }

  lemma {:induction false} DepositsPermuted(r: Response, a: seq<Row>, b: seq<Row>)
    requires multiset(a) == multiset(b)
    ensures multiset(Deposits(r, a)) == multiset(Deposits(r, b))
    decreases |a|
  {
    assert |a| == |multiset(a)| == |multiset(b)| == |b|;
    if a != [] {
      InMultiset(a, a[0]);
      InMultiset(b, a[0]);
      var k := RemoveOne(b, a[0]);
      assert a == [a[0]] + a[1..];
      assert multiset(a[1..]) == multiset(a) - multiset{a[0]};
      DepositsWithout(r, b, k);
      DepositsPermuted(r, a[1..], b[..k] + b[k + 1..]);
      hide RowEntries;
    }
  }

  /** The same year with its rows in another order. */
  predicate SameBlock(a: Block, b: Block) {
    b == a.(rows := b.rows) && multiset(a.rows) == multiset(b.rows)
  }

  predicate SameBlocks(a: seq<Block>, b: seq<Block>) {
    |a| == |b| && forall i :: 0 <= i < |a| ==> SameBlock(a[i], b[i])
  }

  lemma BlockOrderIrrelevant(r: Response, a: Block, b: Block)
    requires SameBlock(a, b)
    ensures Acceptable(r, a) ==> Acceptable(r, b)
    ensures multiset(Deposits(r, a.rows)) == multiset(Deposits(r, b.rows))
  {
    DepositsPermuted(r, a.rows, b.rows);
    CountPermuted(a.rows, b.rows, Subtotals(r));
    SumPermuted(Deposits(r, a.rows), Deposits(r, b.rows), Amount());
    forall column ensures SumBy(Deposits(r, a.rows), ForColumn(column)) == SumBy(Deposits(r, b.rows), ForColumn(column)) {
      SumPermuted(Deposits(r, a.rows), Deposits(r, b.rows), ForColumn(column));
    }
    hide Deposits, Readable, IsSubtotal, ComponentAmounts;
    if Acceptable(r, a) {
      forall row | row in b.rows ensures row in a.rows {
        InMultiset(a.rows, row);
        InMultiset(b.rows, row);
      }
    }
  }

  lemma SameTail(a: seq<Block>, b: seq<Block>)
    requires SameBlocks(a, b) && a != []
    ensures b != [] && SameBlock(a[0], b[0]) && SameBlocks(a[1..], b[1..])
  {
  }

  lemma {:induction false} BlocksAcceptedAlike(r: Response, years: set<string>, a: seq<Block>, b: seq<Block>)
    requires SameBlocks(a, b) && AcceptableBlocks(r, years, a)
    ensures AcceptableBlocks(r, years, b)
    decreases |a|
  {
    if a != [] {
      SameTail(a, b);
      BlockOrderIrrelevant(r, a[0], b[0]);
      FooterSame(r, a[0], b[0]);
      hide Acceptable, Deposits, ValidYear, IsFooter, SameBlocks, SameBlock;
      BlocksAcceptedAlike(r, if IsFooter(r.family, a[0]) then years else years + {a[0].year.value.value}, a[1..], b[1..]);
    }
  }

  lemma {:induction false} BlocksOrderIrrelevant(r: Response, a: seq<Block>, b: seq<Block>)
    requires SameBlocks(a, b)
    ensures multiset(AllDeposits(r, a)) == multiset(AllDeposits(r, b))
    decreases |a|
  {
    if a != [] {
      SameTail(a, b);
      BlockOrderIrrelevant(r, a[0], b[0]);
      hide Deposits, SameBlocks, SameBlock;
      BlocksOrderIrrelevant(r, a[1..], b[1..]);
    }
  }

  lemma FooterSame(r: Response, a: Block, b: Block)
    requires SameBlock(a, b)
    ensures IsFooter(r.family, a) <==> IsFooter(r.family, b)
    ensures a.year == b.year && a.wellFormed == b.wellFormed && a.notIncluded == b.notIncluded && a.total == b.total
    ensures ValidYear(a) <==> ValidYear(b)
  {
    assert |a.rows| == |multiset(a.rows)| == |multiset(b.rows)| == |b.rows|;
  }

  lemma LookupPermuted(groups: seq<Entry>, a: seq<Entry>, b: seq<Entry>, key: Key)
    requires multiset(a) == multiset(b)
    ensures Lookup(AddAll(groups, a), key) == Lookup(AddAll(groups, b), key)
  {
    AddAllLookup(groups, a, key);
    AddAllLookup(groups, b, key);
    CountPermuted(a, b, Mentions(key));
    SumPermuted(a, b, ForKey(key));
  }

  /** The same response with the rows of its years in another order. */
  predicate SameHistory(a: Response, b: Response) {
    SameHeader(a, b) && SameBlocks(a.blocks, b.blocks)
  }

  predicate SameHeader(a: Response, b: Response) {
    b == a.(blocks := b.blocks)
  }

  predicate SameHistories(a: seq<Response>, b: seq<Response>) {
    |a| == |b| && forall i :: 0 <= i < |a| ==> SameHistory(a[i], b[i])
  }

  lemma SameHistoriesTail(a: seq<Response>, b: seq<Response>)
    requires SameHistories(a, b) && a != []
    ensures b != [] && SameHistory(a[0], b[0]) && SameHistories(a[1..], b[1..])
  {
    hide SameHistory;
  }

  /** Reading a year looks only at the header of its response. */
  lemma {:induction false} DepositsOfHeader(r: Response, s: Response, rows: seq<Row>)
    requires SameHeader(r, s)
    ensures Deposits(r, rows) == Deposits(s, rows)
  {
    if rows != [] {
      DepositsOfHeader(r, s, rows[1..]);
    }
  }

  lemma AcceptableOfHeader(r: Response, s: Response, block: Block)
    requires SameHeader(r, s)
    ensures Acceptable(r, block) <==> Acceptable(s, block)
  {
    DepositsOfHeader(r, s, block.rows);
    CountSame(block.rows, Subtotals(r), Subtotals(s));
    hide Deposits, SumBy, Count, ComponentAmounts;
    assert AllReadable(r, block.rows) <==> AllReadable(s, block.rows);
    assert SubtotalsMatch(r, block.rows) <==> SubtotalsMatch(s, block.rows) by {
      forall row
        ensures MatchesColumns(r, block.rows, row) <==> MatchesColumns(s, block.rows, row)
      {
      }
    }
  }

  lemma {:induction false} BlocksOfHeader(r: Response, s: Response, years: set<string>, blocks: seq<Block>)
    requires SameHeader(r, s)
    ensures AllDeposits(r, blocks) == AllDeposits(s, blocks)
    ensures AcceptableBlocks(r, years, blocks) <==> AcceptableBlocks(s, years, blocks)
    decreases |blocks|
  {
    hide Acceptable, Deposits;
    if blocks != [] {
      DepositsOfHeader(r, s, blocks[0].rows);
      AcceptableOfHeader(r, s, blocks[0]);
      BlocksOfHeader(r, s, years, blocks[1..]);
      if ValidYear(blocks[0]) {
        BlocksOfHeader(r, s, years + {blocks[0].year.value.value}, blocks[1..]);
      }
    }
  }

  lemma HistoryOrderIrrelevant(a: Response, b: Response)
    requires SameHistory(a, b)
    ensures AcceptableBlocks(a, {}, a.blocks) <==> AcceptableBlocks(b, {}, b.blocks)
    ensures multiset(AllDeposits(a, a.blocks)) == multiset(AllDeposits(b, b.blocks))
  {
    BlocksOfHeader(a, b, {}, b.blocks);
    BlocksOrderIrrelevant(a, a.blocks, b.blocks);
    assert SameBlocks(b.blocks, a.blocks);
    hide AcceptableBlocks, AllDeposits, SameBlocks;
    if AcceptableBlocks(a, {}, a.blocks) { BlocksAcceptedAlike(a, {}, a.blocks, b.blocks); }
    if AcceptableBlocks(a, {}, b.blocks) { BlocksAcceptedAlike(a, {}, b.blocks, a.blocks); }
  }

  lemma {:induction false} ResponsesAlike(known: set<string>, covered: set<string>, a: seq<Response>, b: seq<Response>)
    requires SameHistories(a, b)
    ensures AcceptableResponses(known, covered, a) <==> AcceptableResponses(known, covered, b)
    ensures multiset(Everything(a)) == multiset(Everything(b))
    decreases |a|
  {
    hide AcceptableBlocks, AllDeposits, SameBlocks;
    if a != [] {
      SameHistoriesTail(a, b);
      HistoryOrderIrrelevant(a[0], b[0]);
      ResponsesAlike(known, covered + {a[0].productId}, a[1..], b[1..]);
    }
  }

  /** Reordering the source rows within their years, in any of the histories, changes neither acceptance nor any group published. */
  lemma RowOrderIrrelevant(known: set<string>, a: seq<Response>, b: seq<Response>)
    requires SameHistories(a, b)
    ensures ReadResponses(known, {}, [], a).Some? <==> ReadResponses(known, {}, [], b).Some?
    ensures ReadResponses(known, {}, [], a).Some? ==>
              multiset(ReadResponses(known, {}, [], a).value) == multiset(ReadResponses(known, {}, [], b).value)
  {
    ReadResponsesExactly(known, {}, [], a);
    ReadResponsesExactly(known, {}, [], b);
    ResponsesAlike(known, {}, a, b);
    var x, y := AddAll([], Everything(a)), AddAll([], Everything(b));
    AddAllDistinct([], Everything(a));
    AddAllDistinct([], Everything(b));
    hide AddAll, Everything, Lookup, ReadResponses, AcceptableResponses, DistinctKeys;
    forall key
      ensures Lookup(x, key) == Lookup(y, key)
    {
      LookupPermuted([], Everything(a), Everything(b), key);
    }
    SameLookups(x, y);
  }

  // ---------------------------------------------------------------- published amounts

  /** The published text of a group is canonical money for exactly its cents. */
  lemma PublishedExact(e: Entry)
    ensures Money.Canonical(Published(e)) && Money.CentsOf(Published(e)) == e.cents && Cents(Published(e)) == Some(e.cents)
  {
    Money.CentsOfFormat(e.cents);
    Money.CanonicalFixed(Published(e));
  }
}
