/** Ids for one scraped batch: rows that share a base id are told apart by ordinals in a stable order. */
module IdAssignment {
  import opened Common
  import opened Sorting
  import opened PercentSegments
  import opened Sums
  import opened TransactionIds

  /** `chargeRank` and `identifierRank` are the places of the charge date and of the identifier, empty when missing,
      in the locale's order of texts. */
  datatype Row = Row(company: Company, accountId: string, identifier: Option<seq<Unit>>, fingerprint: Fingerprint,
                     chargeRank: int, identifierRank: int)

  function BaseOf(row: Row): Option<string> {
    match AccountNumberFromAccountId(row.accountId)
    case None => None
    case Some(number) => BaseId(row.company, number, row.identifier, row.fingerprint)
  }

  /** The order of ordinals: charge date, identifier, then the scraper's own order. */
  predicate Leq(rows: seq<Row>, i: nat, j: nat) {
    var a, b := if i < |rows| then rows[i].chargeRank else 0, if j < |rows| then rows[j].chargeRank else 0;
    var c, d := if i < |rows| then rows[i].identifierRank else 0, if j < |rows| then rows[j].identifierRank else 0;
    a < b || (a == b && (c < d || (c == d && i <= j)))
  }

  lemma LeqTotal(rows: seq<Row>)
    ensures TotalOrder((i: nat, j: nat) => Leq(rows, i, j))
  {
  }

  function Indices(n: nat): (s: seq<nat>)
    ensures |s| == n
  {
    seq(n, i => i)
  }

  function Order(rows: seq<Row>): (o: seq<nat>)
    ensures |o| == |rows| && multiset(o) == multiset(Indices(|rows|))
  {
    Sort(Indices(|rows|), (i: nat, j: nat) => Leq(rows, i, j))
  }

  lemma OrderSorted(rows: seq<Row>)
    ensures forall k, l :: 0 <= k < l < |rows| ==> Leq(rows, Order(rows)[k], Order(rows)[l])
  {
    LeqTotal(rows);
    SortSorted(Indices(|rows|), (i: nat, j: nat) => Leq(rows, i, j));
  }

  lemma OrderInRange(rows: seq<Row>)
    ensures forall k :: 0 <= k < |rows| ==> Order(rows)[k] < |rows|
  {
    forall k | 0 <= k < |rows| ensures Order(rows)[k] < |rows| {
      InMultiset(Order(rows), Order(rows)[k]);
      InMultiset(Indices(|rows|), Order(rows)[k]);
    }
  }

  lemma OrderReaches(rows: seq<Row>, i: nat) returns (k: nat)
    requires i < |rows|
    ensures k < |rows| && Order(rows)[k] == i
  {
    assert Indices(|rows|)[i] == i;
    InMultiset(Indices(|rows|), i);
    InMultiset(Order(rows), i);
    k :| 0 <= k < |rows| && Order(rows)[k] == i;
  }

  lemma {:induction false} NoRepeats(s: seq<nat>, n: nat, k: nat, l: nat)
    requires multiset(s) == multiset(Indices(n)) && k < l < |s|
    ensures s[k] != s[l]
  {
    if s[k] == s[l] {
      assert s == s[..k] + [s[k]] + s[k + 1..l] + [s[l]] + s[l + 1..];
      assert multiset(s)[s[k]] >= 2;
      OnceEach(n, s[k]);
    }
  }

  lemma {:induction false} OnceEach(n: nat, i: nat)
    ensures multiset(Indices(n))[i] == if i < n then 1 else 0
  {
    if n > 0 {
      OnceEach(n - 1, i);
      assert Indices(n) == Indices(n - 1) + [n - 1];
    }
  }

  /** The rows in that order. */
  function Ordered(rows: seq<Row>): (s: seq<Row>)
    ensures |s| == |rows|
  {
    OrderInRange(rows);
    Picked(rows, Order(rows))
  }

  function Picked(rows: seq<Row>, o: seq<nat>): (s: seq<Row>)
    requires forall k :: 0 <= k < |o| ==> o[k] < |rows|
    ensures |s| == |o| && forall k :: 0 <= k < |o| ==> s[k] == rows[o[k]]
  {
    seq(|o|, k requires 0 <= k < |o| => rows[o[k]])
  }

  predicate InRange(rows: seq<Row>, o: seq<nat>) {
    forall k :: 0 <= k < |o| ==> o[k] < |rows|
  }

  lemma PickedWithout(rows: seq<Row>, p: seq<nat>, k: nat)
    requires InRange(rows, p) && k < |p|
    ensures InRange(rows, p[..k] + p[k + 1..])
    ensures multiset(Picked(rows, p)) == multiset(Picked(rows, p[..k] + p[k + 1..])) + multiset{rows[p[k]]}
  {
    var q := p[..k] + p[k + 1..];
    var a, b := Picked(rows, p), Picked(rows, q);
    assert b == a[..k] + a[k + 1..];
    assert a == a[..k] + [a[k]] + a[k + 1..];
  }

  /** Picking rows in another order of the same indices yields the same rows. */
  lemma {:induction false} PickedPermuted(rows: seq<Row>, o: seq<nat>, p: seq<nat>)
    requires InRange(rows, o) && InRange(rows, p) && multiset(o) == multiset(p)
    ensures multiset(Picked(rows, o)) == multiset(Picked(rows, p))
    decreases |o|
  {
    assert |o| == |multiset(o)| == |multiset(p)| == |p|;
    if o != [] {
      InMultiset(o, o[0]);
      InMultiset(p, o[0]);
      var k := RemoveOne(p, o[0]);
      assert o == [o[0]] + o[1..];
      assert o[..0] + o[0 + 1..] == o[1..];
      PickedWithout(rows, o, 0);
      PickedWithout(rows, p, k);
      hide Picked, InRange;
      PickedPermuted(rows, o[1..], p[..k] + p[k + 1..]);
    }
  }

  lemma OrderedPermutes(rows: seq<Row>)
    ensures multiset(Ordered(rows)) == multiset(rows)
  {
    OrderInRange(rows);
    PickedPermuted(rows, Order(rows), Indices(|rows|));
    assert Picked(rows, Indices(|rows|)) == rows;
  }

  // ---------------------------------------------------------------- counting

  function HasBase(base: string): Row -> bool {
    row => BaseOf(row) == Some(base)
  }

  // ---------------------------------------------------------------- the ids

  /** The ordinal of a row with this base id at place `k` of the order: one more than the rows of that base before it. */
  function OrdinalAt(rows: seq<Row>, k: nat, base: string): nat
    requires k < |rows|
  {
    1 + Count(Ordered(rows)[..k], HasBase(base))
  }

  function IdAt(rows: seq<Row>, k: nat): Option<string>
    requires k < |rows|
  {
    match BaseOf(Ordered(rows)[k])
    case None => None
    case Some(base) => WithOrdinal(base, OrdinalAt(rows, k, base))
  }

  /** `ids[i]` is the id of row `i`. */
  ghost predicate Assigned(rows: seq<Row>, ids: seq<string>) {
    |ids| == |rows| && forall k :: 0 <= k < |rows| ==> Order(rows)[k] < |ids| && IdAt(rows, k) == Some(ids[Order(rows)[k]])
  }

  predicate Seen(seen: map<string, nat>, rows: seq<Row>, base: string) {
    Count(rows, HasBase(base)) == if base in seen then seen[base] else 0
  }

  ghost predicate SeenAll(seen: map<string, nat>, rows: seq<Row>) {
    forall base :: Seen(seen, rows, base)
  }

  /** The ids of a batch in the batch's own order; none when one of them cannot be built. */
  method AssignTransactionIds(rows: seq<Row>) returns (result: Option<seq<string>>)
    ensures result.Some? <==> Succeeds(rows)
    ensures result.Some? ==> Assigned(rows, result.value)
  {
    hide Order, WithOrdinal, BaseOf, Count;
    var ordered := Order(rows);
    OrderInRange(rows);
    NothingSeen(Ordered(rows)[..0]);
    var seen: map<string, nat> := map[];
    var ids := seq(|rows|, _ => "");
    var k := 0;
    while k < |rows|
      invariant 0 <= k <= |rows| && |ids| == |rows|
      invariant SeenAll(seen, Ordered(rows)[..k])
      invariant forall l :: 0 <= l < k ==> IdAt(rows, l) == Some(ids[ordered[l]])
    {
      var row := rows[ordered[k]];
      assert Ordered(rows)[k] == row;
      var base := BaseOf(row);
      if base.None? {
        assert IdAt(rows, k).None?;
        return None;
      }
      assert Seen(seen, Ordered(rows)[..k], base.value);
      var ordinal := (if base.value in seen then seen[base.value] else 0) + 1;
      assert ordinal == OrdinalAt(rows, k, base.value);
      var id := WithOrdinal(base.value, ordinal);
      if id.None? {
        assert IdAt(rows, k).None?;
        return None;
      }
      forall l | 0 <= l < k ensures ordered[l] != ordered[k] {
        NoRepeats(ordered, |rows|, l, k);
      }
      SeenStep(seen, Ordered(rows), k, base.value, seen[base.value := ordinal]);
      seen := seen[base.value := ordinal];
      ids := ids[ordered[k] := id.value];
      k := k + 1;
    }
    result := Some(ids);
  }

  lemma NothingSeen(rows: seq<Row>)
    requires rows == []
    ensures SeenAll(map[], rows)
  {
  }

  lemma SeenStep(seen: map<string, nat>, rows: seq<Row>, k: nat, base: string, after: map<string, nat>)
    requires k < |rows| && BaseOf(rows[k]) == Some(base) && SeenAll(seen, rows[..k])
    requires after == seen[base := Count(rows[..k], HasBase(base)) + 1]
    ensures SeenAll(after, rows[..k + 1])
  {
    var more := rows[..k + 1];
    hide BaseOf, Count, HasBase, Seen;
    forall b ensures Seen(after, more, b) {
      assert Seen(seen, rows[..k], b);
      SeenNext(seen, rows, k, base, after, b);
    }
  }

  lemma SeenNext(seen: map<string, nat>, rows: seq<Row>, k: nat, base: string, after: map<string, nat>, b: string)
    requires k < |rows| && BaseOf(rows[k]) == Some(base) && Seen(seen, rows[..k], b)
    requires after == seen[base := Count(rows[..k], HasBase(base)) + 1]
    ensures Seen(after, rows[..k + 1], b)
  {
    hide BaseOf, Count, HasBase;
    HasBaseIs(rows[k], base, b);
    CountNext(rows, k, HasBase(b));
    Bumped(seen, base, Count(rows[..k], HasBase(base)) + 1, b);
  }

  lemma HasBaseIs(row: Row, base: string, b: string)
    requires BaseOf(row) == Some(base)
    ensures HasBase(b)(row) <==> b == base
  {
    hide BaseOf;
  }

  lemma Bumped(seen: map<string, nat>, base: string, n: nat, b: string)
    ensures var after := seen[base := n]; (b in after <==> b == base || b in seen) && (b in after ==> after[b] == if b == base then n else seen[b])
  {
  }

  // ---------------------------------------------------------------- properties

  /** Rows at different places have different ids. */
  lemma IdsDiffer(rows: seq<Row>, k: nat, l: nat)
    requires k < l < |rows| && IdAt(rows, k).Some? && IdAt(rows, l).Some?
    ensures IdAt(rows, k) != IdAt(rows, l)
  {
    var a, b := Ordered(rows)[k], Ordered(rows)[l];
    BaseHasNoHash(a.company, AccountNumberFromAccountId(a.accountId).value, a.identifier, a.fingerprint);
    BaseHasNoHash(b.company, AccountNumberFromAccountId(b.accountId).value, b.identifier, b.fingerprint);
    if IdAt(rows, k) == IdAt(rows, l) {
      OrdinalInjective(BaseOf(a).value, OrdinalAt(rows, k, BaseOf(a).value), BaseOf(b).value, OrdinalAt(rows, l, BaseOf(b).value));
      CountGrows(Ordered(rows), k, l, HasBase(BaseOf(a).value));
    }
  }

  /** The place of a row in the order. */
  lemma AssignedAt(rows: seq<Row>, ids: seq<string>, i: nat) returns (k: nat)
    requires Assigned(rows, ids) && i < |rows|
    ensures k < |rows| && Order(rows)[k] == i && Ordered(rows)[k] == rows[i] && IdAt(rows, k) == Some(ids[i])
  {
    k := OrderReaches(rows, i);
    OrderInRange(rows);
    hide IdAt, Order;
  }

  /** Ids are pairwise distinct. */
  lemma Distinct(rows: seq<Row>, ids: seq<string>, i: nat, j: nat)
    requires Assigned(rows, ids) && i < j < |rows|
    ensures ids[i] != ids[j]
  {
    hide IdAt, Order, Ordered, Assigned, BaseOf;
    var k := AssignedAt(rows, ids, i);
    var l := AssignedAt(rows, ids, j);
    if k < l { IdsDiffer(rows, k, l); } else { IdsDiffer(rows, l, k); }
  }

  /** How many rows of the batch share a base id. */
  function Total(rows: seq<Row>, base: string): nat {
    Count(rows, HasBase(base))
  }

  lemma {:induction false} DenseBefore(rows: seq<Row>, k: nat, base: string, ordinal: nat) returns (l: nat)
    requires k <= |rows| && 1 <= ordinal <= Count(Ordered(rows)[..k], HasBase(base))
    ensures l < k && BaseOf(Ordered(rows)[l]) == Some(base) && OrdinalAt(rows, l, base) == ordinal
    decreases k
  {
    hide BaseOf, Ordered;
    assert k > 0;
    CountNext(Ordered(rows), k - 1, HasBase(base));
    hide Count;
    if ordinal <= Count(Ordered(rows)[..k - 1], HasBase(base)) {
      l := DenseBefore(rows, k - 1, base, ordinal);
    } else {
      l := k - 1;
    }
  }

  lemma TotalInOrder(rows: seq<Row>, base: string)
    ensures Count(Ordered(rows)[..|rows|], HasBase(base)) == Total(rows, base)
  {
    OrderedPermutes(rows);
    assert Ordered(rows)[..|rows|] == Ordered(rows);
    CountPermuted(Ordered(rows), rows, HasBase(base));
  }

  predicate Numbered(rows: seq<Row>, base: string, ordinal: nat, id: string) {
    1 <= ordinal <= Total(rows, base) && WithOrdinal(base, ordinal) == Some(id)
  }

  lemma IdIsNumbered(rows: seq<Row>, ids: seq<string>, i: nat) returns (base: string, ordinal: nat)
    requires Assigned(rows, ids) && i < |rows|
    ensures Numbered(rows, base, ordinal, ids[i])
  {
    hide Order, Ordered, WithOrdinal, Count, Assigned, BaseOf, HasBase;
    var k := AssignedAt(rows, ids, i);
    base := BaseOf(rows[i]).value;
    ordinal := OrdinalAt(rows, k, base);
    TotalInOrder(rows, base);
    HasBaseIs(rows[i], base, base);
    CountGrows(Ordered(rows), k, |rows|, HasBase(base));
  }

  lemma NumberedIsId(rows: seq<Row>, ids: seq<string>, base: string, ordinal: nat, id: string)
    requires Assigned(rows, ids) && Numbered(rows, base, ordinal, id)
    ensures id in ids
  {
    TotalInOrder(rows, base);
    hide Order, Ordered, WithOrdinal, Count, BaseOf;
    var l := DenseBefore(rows, |rows|, base, ordinal);
    assert IdAt(rows, l) == Some(ids[Order(rows)[l]]);
  }

  /** The ids of a batch are, for every base id, exactly those with the ordinals from one to the number of its rows. */
  lemma IdsAre(rows: seq<Row>, ids: seq<string>, id: string)
    requires Assigned(rows, ids)
    ensures id in ids <==> exists base, ordinal: nat :: Numbered(rows, base, ordinal, id)
  {
    hide Numbered;
    if id in ids {
      var i :| 0 <= i < |ids| && ids[i] == id;
      var base, ordinal := IdIsNumbered(rows, ids, i);
    }
    if base, ordinal: nat :| Numbered(rows, base, ordinal, id) {
      NumberedIsId(rows, ids, base, ordinal, id);
    }
  }

  lemma {:induction false} DistinctMultiset(s: seq<string>, x: string)
    requires forall i, j :: 0 <= i < j < |s| ==> s[i] != s[j]
    ensures multiset(s)[x] == if x in s then 1 else 0
  {
    if s != [] {
      DistinctMultiset(s[1..], x);
      assert s == [s[0]] + s[1..];
    }
  }

  lemma NumberedElsewhere(rows: seq<Row>, other: seq<Row>, base: string, ordinal: nat, id: string)
    requires multiset(rows) == multiset(other) && Numbered(rows, base, ordinal, id)
    ensures Numbered(other, base, ordinal, id)
  {
    CountPermuted(rows, other, HasBase(base));
    hide WithOrdinal, Count;
  }

  lemma IdsElsewhere(rows: seq<Row>, other: seq<Row>, ids: seq<string>, otherIds: seq<string>, id: string)
    requires multiset(rows) == multiset(other) && Assigned(rows, ids) && Assigned(other, otherIds) && id in ids
    ensures id in otherIds
  {
    var i :| 0 <= i < |ids| && ids[i] == id;
    hide Numbered, Assigned;
    var base, ordinal := IdIsNumbered(rows, ids, i);
    NumberedElsewhere(rows, other, base, ordinal, id);
    NumberedIsId(other, otherIds, base, ordinal, id);
  }

  lemma OnceIn(rows: seq<Row>, ids: seq<string>, id: string)
    requires Assigned(rows, ids)
    ensures multiset(ids)[id] == if id in ids then 1 else 0
  {
    forall i, j | 0 <= i < j < |ids| ensures ids[i] != ids[j] { Distinct(rows, ids, i, j); }
    DistinctMultiset(ids, id);
  }

  lemma SameIds(rows: seq<Row>, other: seq<Row>, ids: seq<string>, otherIds: seq<string>)
    requires multiset(rows) == multiset(other) && Assigned(rows, ids) && Assigned(other, otherIds)
    ensures multiset(ids) == multiset(otherIds)
  {
    hide Assigned;
    forall id ensures multiset(ids)[id] == multiset(otherIds)[id] {
      OnceIn(rows, ids, id);
      OnceIn(other, otherIds, id);
      if id in ids { IdsElsewhere(rows, other, ids, otherIds, id); }
      if id in otherIds { IdsElsewhere(other, rows, otherIds, ids, id); }
    }
  }

  /** Every row has an id. */
  ghost predicate Succeeds(rows: seq<Row>) {
    forall k :: 0 <= k < |rows| ==> IdAt(rows, k).Some?
  }

  ghost predicate OrdinalsFit(rows: seq<Row>, base: string) {
    forall ordinal: nat :: 1 <= ordinal <= Total(rows, base) ==> WithOrdinal(base, ordinal).Some?
  }

  /** A batch gets its ids exactly when every row has a base id and every base id has room for all its ordinals. */
  lemma SucceedsExactly(rows: seq<Row>)
    ensures Succeeds(rows) <==> (forall i :: 0 <= i < |rows| ==> BaseOf(rows[i]).Some?) && forall base :: OrdinalsFit(rows, base)
  {
    OrderInRange(rows);
    hide Order, WithOrdinal, BaseOf, Count, HasBase;
    if Succeeds(rows) {
      forall i | 0 <= i < |rows|
        ensures BaseOf(rows[i]).Some?
      {
        var k := OrderReaches(rows, i);
        assert Ordered(rows)[k] == rows[i] && IdAt(rows, k).Some?;
      }
      forall base, ordinal: nat | 1 <= ordinal <= Total(rows, base)
        ensures WithOrdinal(base, ordinal).Some?
      {
        TotalInOrder(rows, base);
        var l := DenseBefore(rows, |rows|, base, ordinal);
        assert IdAt(rows, l).Some?;
      }
    }
    if (forall i :: 0 <= i < |rows| ==> BaseOf(rows[i]).Some?) && forall base :: OrdinalsFit(rows, base) {
      forall k | 0 <= k < |rows|
        ensures IdAt(rows, k).Some?
      {
        assert Ordered(rows)[k] == rows[Order(rows)[k]];
        var base := BaseOf(Ordered(rows)[k]).value;
        OrdinalInRange(rows, k, base);
        assert OrdinalsFit(rows, base);
      }
    }
  }

  lemma OrdinalInRange(rows: seq<Row>, k: nat, base: string)
    requires k < |rows| && BaseOf(Ordered(rows)[k]) == Some(base)
    ensures 1 <= OrdinalAt(rows, k, base) <= Total(rows, base)
  {
    hide Ordered, Count, BaseOf, HasBase;
    TotalInOrder(rows, base);
    HasBaseIs(Ordered(rows)[k], base, base);
    CountGrows(Ordered(rows), k, |rows|, HasBase(base));
  }

  lemma SucceedsElsewhere(rows: seq<Row>, other: seq<Row>)
    requires multiset(rows) == multiset(other) && Succeeds(rows)
    ensures Succeeds(other)
  {
    SucceedsExactly(rows);
    SucceedsExactly(other);
    hide BaseOf, Succeeds, WithOrdinal;
    forall i | 0 <= i < |other|
      ensures BaseOf(other[i]).Some?
    {
      InMultiset(other, other[i]);
      InMultiset(rows, other[i]);
      assert other[i] in rows;
    }
    forall base
      ensures OrdinalsFit(other, base)
    {
      assert OrdinalsFit(rows, base);
      CountPermuted(rows, other, HasBase(base));
    }
  }

  /** Whatever the order of the batch, it gets ids or not, and its ids are the same. */
  lemma OrderOfBatchIrrelevant(rows: seq<Row>, other: seq<Row>, ids: seq<string>, otherIds: seq<string>)
    requires multiset(rows) == multiset(other)
    ensures Succeeds(rows) <==> Succeeds(other)
    ensures Assigned(rows, ids) && Assigned(other, otherIds) ==> multiset(ids) == multiset(otherIds)
  {
    hide Succeeds, Assigned;
    if Succeeds(rows) {
      SucceedsElsewhere(rows, other);
    }
    if Succeeds(other) {
      SucceedsElsewhere(other, rows);
    }
    if Assigned(rows, ids) && Assigned(other, otherIds) {
      SameIds(rows, other, ids, otherIds);
    }
  }

  // ---------------------------------------------------------------- rows that keep their id

  /** Rows of one base have pairwise distinct charge dates. */
  ghost predicate DistinctCharges(rows: seq<Row>, base: string) {
    forall i, j :: 0 <= i < j < |rows| && BaseOf(rows[i]) == BaseOf(rows[j]) == Some(base) ==> rows[i].chargeRank != rows[j].chargeRank
  }

  function Earlier(base: string, charge: int): Row -> bool {
    row => BaseOf(row) == Some(base) && row.chargeRank < charge
  }

  lemma DistinctInOrder(rows: seq<Row>, base: string)
    requires DistinctCharges(rows, base)
    ensures DistinctCharges(Ordered(rows), base)
  {
    OrderInRange(rows);
    forall k, l | 0 <= k < l < |rows| && BaseOf(Ordered(rows)[k]) == BaseOf(Ordered(rows)[l]) == Some(base)
      ensures Ordered(rows)[k].chargeRank != Ordered(rows)[l].chargeRank
    {
      NoRepeats(Order(rows), |rows|, k, l);
      assert Ordered(rows)[k] == rows[Order(rows)[k]] && Ordered(rows)[l] == rows[Order(rows)[l]];
    }
  }

  lemma ChargesInOrder(rows: seq<Row>, k: nat, l: nat)
    requires k < l < |rows|
    ensures Ordered(rows)[k].chargeRank <= Ordered(rows)[l].chargeRank
  {
    OrderSorted(rows);
    OrderInRange(rows);
    assert Leq(rows, Order(rows)[k], Order(rows)[l]);
  }

  /** With distinct charge dates, a row's ordinal counts the rows of its base charged earlier. */
  lemma OrdinalCounts(rows: seq<Row>, k: nat, base: string)
    requires k < |rows| && BaseOf(Ordered(rows)[k]) == Some(base) && DistinctCharges(rows, base)
    ensures OrdinalAt(rows, k, base) == 1 + Count(rows, Earlier(base, Ordered(rows)[k].chargeRank))
  {
    hide Ordered, Count, BaseOf, Earlier, HasBase, DistinctCharges;
    var s := Ordered(rows);
    var p := Earlier(base, s[k].chargeRank);
    assert s == s[..k] + s[k..];
    CountJoined(s[..k], s[k..], p);
    EarlierBefore(rows, k, base);
    CountSame(s[..k], HasBase(base), p);
    NoneEarlierAfter(rows, k, base);
    CountNone(s[k..], p);
    OrderedPermutes(rows);
    CountPermuted(s, rows, p);
  }

  lemma EarlierBefore(rows: seq<Row>, k: nat, base: string)
    requires k < |rows| && BaseOf(Ordered(rows)[k]) == Some(base) && DistinctCharges(rows, base)
    ensures var s := Ordered(rows); var p := Earlier(base, s[k].chargeRank);
      forall l :: 0 <= l < k ==> HasBase(base)(s[..k][l]) == p(s[..k][l])
  {
    var s := Ordered(rows);
    var p := Earlier(base, s[k].chargeRank);
    DistinctInOrder(rows, base);
    hide Ordered, BaseOf;
    forall l | 0 <= l < k ensures HasBase(base)(s[..k][l]) == p(s[..k][l]) {
      ChargesInOrder(rows, l, k);
      assert s[..k][l] == s[l];
    }
  }

  lemma NoneEarlierAfter(rows: seq<Row>, k: nat, base: string)
    requires k < |rows|
    ensures var s := Ordered(rows); var p := Earlier(base, s[k].chargeRank); forall l :: 0 <= l < |s[k..]| ==> !p(s[k..][l])
  {
    hide Ordered, BaseOf, Earlier;
    var s := Ordered(rows);
    var t := s[k..];
    var p := Earlier(base, s[k].chargeRank);
    forall l | 0 <= l < |t| ensures !p(t[l]) {
      if l > 0 { ChargesInOrder(rows, k, k + l); }
      assert t[l] == s[k + l];
      NotEarlier(t[l], base, s[k].chargeRank);
    }
  }

  lemma NotEarlier(row: Row, base: string, charge: int)
    requires row.chargeRank >= charge
    ensures !Earlier(base, charge)(row)
  {
  }

  function ChargedAt(base: string, charge: int): Row -> bool {
    row => BaseOf(row) == Some(base) && row.chargeRank == charge
  }

  lemma {:induction false} AtMostOne(rows: seq<Row>, base: string, charge: int)
    requires DistinctCharges(rows, base)
    ensures Count(rows, ChargedAt(base, charge)) <= 1
    ensures Count(rows, ChargedAt(base, charge)) == 1 ==>
              exists i :: 0 <= i < |rows| && BaseOf(rows[i]) == Some(base) && rows[i].chargeRank == charge
  {
    hide BaseOf;
    if rows != [] {
      AtMostOne(rows[..|rows| - 1], base, charge);
    }
  }

  lemma DistinctElsewhere(rows: seq<Row>, other: seq<Row>, base: string)
    requires multiset(rows) == multiset(other) && DistinctCharges(rows, base)
    ensures DistinctCharges(other, base)
  {
    hide BaseOf;
    forall i, j | 0 <= i < j < |other| && BaseOf(other[i]) == BaseOf(other[j]) == Some(base)
      ensures other[i].chargeRank != other[j].chargeRank
    {
      var p := ChargedAt(base, other[i].chargeRank);
      AtMostOne(rows, base, other[i].chargeRank);
      CountPermuted(rows, other, p);
      CountGrows(other, i, j, p);
      CountGrows(other, j, |other|, p);
      assert other[..|other|] == other;
      assert p(other[i]);
      hide Count;
      assert p(other[j]) <==> other[i].chargeRank == other[j].chargeRank;
    }
  }

  /** A row whose base's rows are told apart by charge date keeps its id in every order of the batch. */
  lemma RowKeepsId(rows: seq<Row>, other: seq<Row>, ids: seq<string>, otherIds: seq<string>, i: nat, j: nat, base: string)
    requires multiset(rows) == multiset(other) && Assigned(rows, ids) && Assigned(other, otherIds)
    requires i < |rows| && j < |other| && rows[i] == other[j] && BaseOf(rows[i]) == Some(base)
    requires DistinctCharges(rows, base)
    ensures ids[i] == otherIds[j]
  {
    hide Order, Ordered, Assigned, BaseOf, Count, OrdinalAt, DistinctCharges, Earlier, WithOrdinal, ChargedAt;
    DistinctElsewhere(rows, other, base);
    var k := AssignedAt(rows, ids, i);
    var l := AssignedAt(other, otherIds, j);
    OrdinalCounts(rows, k, base);
    OrdinalCounts(other, l, base);
    CountPermuted(rows, other, Earlier(base, rows[i].chargeRank));
  }
}
