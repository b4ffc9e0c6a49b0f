/** Deposits grouped by their complete source dimensions, in exact cents. */
module DepositGroups {
  import opened Common
  import Money

  datatype Family = Pension | Hishtalmut

  /** Source columns of one family, in order; the last of the second is the saver's own contribution. */
  function Columns(family: Family): nat {
    if family.Pension? then 3 else 4
  }

  /** A parsed date or month: malformed, or possibly missing. */
  datatype Parsed = Malformed | Parsed(value: Option<string>)

  /** A source row: money texts of the components and their total; `name` is the employer or the kind of transaction. */
  datatype Row = Row(amounts: seq<string>, total: string, name: Option<string>, salary: Parsed, booked: Parsed, track: Option<string>)

  /** One year of a history. A missing year is allowed only for an empty footer of the second family. */
  datatype Block = Block(year: Parsed, wellFormed: bool, notIncluded: bool, rows: seq<Row>, total: string)

  datatype Response = Response(family: Family, productId: string, employerId: Option<string>, employerName: Option<string>,
                               wellFormed: bool, blocks: seq<Block>)

  datatype Dimensions = Dimensions(productId: string, employerId: Option<string>, employerName: Option<string>, booked: Option<string>,
                                   salary: Option<string>, description: string, track: Option<string>)

  /** What the group hash is taken over: all dimensions and the component, never the amount. */
  datatype Key = Key(dimensions: Dimensions, family: Family, column: nat)

  datatype Entry = Entry(key: Key, cents: int)

  // ---------------------------------------------------------------- amounts

  function Cents(text: string): Option<int> {
    match Money.Parse(text)
    case None => None
    case Some(canonical) => if Money.Canonical(canonical) then Some(Money.CentsOf(canonical)) else None
  }

  function AllCents(texts: seq<string>): (r: Option<seq<int>>)
    ensures r.Some? ==> |r.value| == |texts|
  {
    if texts == [] then Some([])
    else
      var first, rest := Cents(texts[0]), AllCents(texts[1..]);
      if first.None? || rest.None? then None else Some([first.value] + rest.value)
  }

  function Sum(amounts: seq<int>): int {
    if amounts == [] then 0 else amounts[0] + Sum(amounts[1..])
  }

  /** The amounts of the components, if they add up to the row's own total. */
  function ComponentAmounts(row: Row): (r: Option<seq<int>>)
    ensures r.Some? ==> |r.value| == |row.amounts|
  {
    var amounts, total := AllCents(row.amounts), Cents(row.total);
    if amounts.None? || total.None? || Sum(amounts.value) != total.value then None else amounts
  }

  function Added(a: seq<int>, b: seq<int>): (r: seq<int>)
    requires |a| == |b|
    ensures |r| == |a|
  {
    if a == [] then [] else [a[0] + b[0]] + Added(a[1..], b[1..])
  }

  function Nothing(n: nat): (r: seq<int>)
    ensures |r| == n
  {
    seq(n, _ => 0)
  }

  // ---------------------------------------------------------------- groups

  /** A group map in insertion order. */
  function Add(groups: seq<Entry>, key: Key, cents: int): seq<Entry> {
    if groups == [] then [Entry(key, cents)]
    else if groups[0].key == key then [Entry(key, groups[0].cents + cents)] + groups[1..]
    else [groups[0]] + Add(groups[1..], key, cents)
  }

  function AddAll(groups: seq<Entry>, more: seq<Entry>): seq<Entry>
    decreases |more|
  {
    if more == [] then groups else AddAll(Add(groups, more[0].key, more[0].cents), more[1..])
  }

  /** What one row adds: one entry for each component. */
  function Entries(dimensions: Dimensions, family: Family, amounts: seq<int>): (r: seq<Entry>)
    ensures |r| == |amounts|
  {
    seq(|amounts|, i requires 0 <= i < |amounts| => Entry(Key(dimensions, family, i), amounts[i]))
  }

  // ---------------------------------------------------------------- rows

  const DEPOSIT := "הפקדה"

  predicate SpellsAll(s: string) {
    |s| == 3 && (s[0] == 'a' || s[0] == 'A') && (s[1] == 'l' || s[1] == 'L') && (s[2] == 'l' || s[2] == 'L')
  }

  predicate Undated(row: Row) {
    row.booked == Parsed(None) && row.salary == Parsed(None)
  }

  predicate IsSubtotal(family: Family, row: Row) {
    && row.name.Some? && Undated(row)
    && if family.Pension? then SpellsAll(row.name.value) else row.name.value == "Total" && row.track.None?
  }

  /** A row that may be a deposit: a named employer, or the one verified label, and some date. */
  predicate IsDeposit(family: Family, row: Row) {
    && row.name.Some? && (if family.Pension? then row.name.value != "" else row.name.value == DEPOSIT)
    && row.booked.Parsed? && row.salary.Parsed? && (row.booked.value.Some? || row.salary.value.Some?)
  }

  function DimensionsOf(r: Response, row: Row): Dimensions
    requires IsDeposit(r.family, row)
  {
    if r.family.Pension? then
      Dimensions(r.productId, None, row.name, row.booked.value, row.salary.value, "Deposit", None)
    else
      Dimensions(r.productId, r.employerId, r.employerName, row.booked.value, row.salary.value, row.name.value, row.track)
  }

  /** The sums so far, the subtotal row met, and the groups. */
  datatype Progress = Progress(sums: seq<int>, subtotal: Option<seq<int>>, groups: seq<Entry>)

  predicate Sized(r: Response, p: Progress) {
    |p.sums| == Columns(r.family) && (p.subtotal.Some? ==> |p.subtotal.value| == Columns(r.family))
  }

  function ReadRow(r: Response, p: Progress, row: Row): (q: Option<Progress>)
    requires Sized(r, p)
    ensures q.Some? ==> Sized(r, q.value)
  {
    var amounts := ComponentAmounts(row);
    if amounts.None? || |row.amounts| != Columns(r.family) || row.salary.Malformed? || row.booked.Malformed? then None
    else if IsSubtotal(r.family, row) then
      if p.subtotal.Some? then None else Some(p.(subtotal := amounts))
    else if !IsDeposit(r.family, row) then None
    else
      Some(p.(sums := Added(p.sums, amounts.value), groups := AddAll(p.groups, Entries(DimensionsOf(r, row), r.family, amounts.value))))
  }

  function ReadRows(r: Response, p: Progress, rows: seq<Row>): (q: Option<Progress>)
    requires Sized(r, p)
    ensures q.Some? ==> Sized(r, q.value)
    decreases |rows|
  {
    if rows == [] then Some(p)
    else
      match ReadRow(r, p, rows[0])
      case None => None
      case Some(next) => ReadRows(r, next, rows[1..])
  }

  // ---------------------------------------------------------------- years

  predicate YearText(s: string) {
    |s| == 4 && forall i :: 0 <= i < 4 ==> '0' <= s[i] <= '9'
  }

  predicate IsFooter(family: Family, block: Block) {
    family.Hishtalmut? && block.year == Parsed(None) && block.rows == []
  }

  predicate ValidYear(block: Block) {
    block.year.Parsed? && block.year.value.Some? && YearText(block.year.value.value)
  }

  /** The annual total must be met, and so must a subtotal row. */
  predicate TotalsMatch(block: Block, p: Progress) {
    && Cents(block.total).Some? && Sum(p.sums) == Cents(block.total).value
    && (p.subtotal.Some? ==> p.subtotal.value == p.sums)
  }

  function ReadBlock(r: Response, groups: seq<Entry>, block: Block): Option<seq<Entry>> {
    match ReadRows(r, Progress(Nothing(Columns(r.family)), None, groups), block.rows)
    case None => None
    case Some(p) => if TotalsMatch(block, p) then Some(p.groups) else None
  }

  /** `years` are the years already read. */
  function ReadBlocks(r: Response, years: set<string>, groups: seq<Entry>, blocks: seq<Block>): Option<seq<Entry>>
    decreases |blocks|
  {
    if blocks == [] then Some(groups)
    else
      var block := blocks[0];
      if IsFooter(r.family, block) then ReadBlocks(r, years, groups, blocks[1..])
      else if !ValidYear(block) || block.year.value.value in years || !block.wellFormed || (r.family.Hishtalmut? && block.notIncluded) then None
      else
        match ReadBlock(r, groups, block)
        case None => None
        case Some(next) => ReadBlocks(r, years + {block.year.value.value}, next, blocks[1..])
  }

  /** All histories into one group map; a product appears once and must be known. */
  function ReadResponses(known: set<string>, covered: set<string>, groups: seq<Entry>, responses: seq<Response>): Option<seq<Entry>>
    decreases |responses|
  {
    if responses == [] then Some(groups)
    else
      var r := responses[0];
      if !r.wellFormed then None
      else
        match ReadBlocks(r, {}, groups, r.blocks)
        case None => None
        case Some(next) =>
          if r.productId in covered || r.productId !in known then None
          else ReadResponses(known, covered + {r.productId}, next, responses[1..])
  }

  /** The amount a group is published with. */
  function Published(e: Entry): string {
    Money.Format(e.cents)
  }
}
