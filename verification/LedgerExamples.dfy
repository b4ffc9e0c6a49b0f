/** Inputs on which the ledgers do what one would not expect. */
module LedgerExamples {
  import opened Common
  import opened LedgerRows
  import opened ArchiveInstallments
  import opened LedgerCoalescing
  import opened LedgerBatches
  import opened LedgerReplays
  import opened LedgerAgreement
  import Memory = MemoryLedger
  import Sqlite = SqliteLedger

  const BOUGHT := "2024-01-05"
  const CHARGED := "2024-02-10"

  /** Source dates are calendar dates already, and every row has the same fingerprint. */
  const PLAIN := Setting(text => Some(text), _ => "")

  function Installment(id: string, company: string, raw: Raw): Row {
    Row(id, "card", company, Some("7"), BOUGHT, Some(CHARGED), -1000, "ILS", "shop", None, Posted, None, Some(1), Some(2),
        None, None, None, false, 0, 0, 1, raw)
  }

  function Archived(id: string): Row {
    Installment(id, "visaCal",
      Object(EMPTY_PORTAL, Evidence("r", BOUGHT, "7", ArchiveRecord("r", "card", -1000, "ILS", "shop", BOUGHT), "")))
  }

  function Scraped(id: string): Row {
    Installment(id, "visaCal",
      Object(Portal(Some(BOUGHT), Some(CHARGED), Some("7"), Some("shop"), Some(-1000), Some(1), Some(2), ""), NoArchive))
  }

  lemma ScrapedMatchesArchived(archived: string, scraped: string)
    ensures Matches(PLAIN, Archived(archived), Scraped(scraped))
    ensures !Matches(PLAIN, Archived(archived), Archived(scraped))
  {
    assert IsoPrefix(BOUGHT) && IsoPrefix(CHARGED);
  }

  // ---------------------------------------------------------------- a batch refused the second time

  const ONE_STORED := Ledger(map["c" := Archived("c")], [], [])
  const MIXED_BATCH := [Scraped("p"), Archived("a")]

  lemma MixedBatchTargets()
    ensures Own(PLAIN, ONE_STORED.rows, MIXED_BATCH[0]) == Some(Archived("c")) && Own(PLAIN, ONE_STORED.rows, MIXED_BATCH[1]) == None
    ensures Canonical(PLAIN, ONE_STORED.rows, MIXED_BATCH[0]).Ok? && Canonical(PLAIN, ONE_STORED.rows, MIXED_BATCH[1]).Ok?
  {
    ScrapedMatchesArchived("c", "p");
    ScrapedMatchesArchived("c", "a");
    hide Matches;
    assert MatchIds(PLAIN, ONE_STORED.rows, MIXED_BATCH[0]) == {"c"};
    FindSingle(PLAIN, ONE_STORED.rows, MIXED_BATCH[0], "c");
    assert MatchIds(PLAIN, ONE_STORED.rows, MIXED_BATCH[1]) == {};
  }

  /** The scraped row goes to the stored one, the archived row is new; the second time the scraped row matches both. */
  lemma RepeatedBatchRefused()
    ensures Memory.Upserted(ONE_STORED, Some(PLAIN), MIXED_BATCH).Ok?
    ensures Memory.Upserted(Memory.Upserted(ONE_STORED, Some(PLAIN), MIXED_BATCH).value.0, Some(PLAIN), MIXED_BATCH).Err?
  {
    MixedBatchTargets();
    ScrapedMatchesArchived("a", "p");
    hide Memory.Upserted, Own, Canonical, Matches;
    BatchWrites(ONE_STORED, PLAIN, MIXED_BATCH);
    TwiceIsOnce(ONE_STORED, PLAIN, MIXED_BATCH);
    assert Clash(PLAIN, ONE_STORED.rows, MIXED_BATCH, 0, 1);
  }

  // ---------------------------------------------------------------- different errors

  /** Two archived rows for one scraped row, and a row of another company. */
  const SPLIT_TABLE: Sqlite.Table := map[
    "a" := Sqlite.InsertedRow(Archived("a")), "b" := Sqlite.InsertedRow(Archived("b")), "p" := Sqlite.InsertedRow(Scraped("p")),
    "o" := Sqlite.InsertedRow(Installment("o", "max", NotObject("")))]
  const SPLIT_PAIR := Pair("o", "", "p", "")

  /** The in-memory ledger finds the duplicate ambiguous, SQLite does not find the canonical row. */
  lemma ErrorsMayDiffer()
    ensures var t := Sqlite.Tables(SPLIT_TABLE, [], []); var l := Ledger(Sqlite.RowsOf(SPLIT_TABLE), [], []);
            && Represents(t, l)
            && Memory.CoalescedLedger(l, PLAIN, [SPLIT_PAIR], false) == Err(AmbiguousArchive)
            && Sqlite.CoalescedTables(t, PLAIN, [SPLIT_PAIR], false) == Err(PreStateChanged)
  {
    var t, l := Sqlite.Tables(SPLIT_TABLE, [], []), Ledger(Sqlite.RowsOf(SPLIT_TABLE), [], []);
    SplitPairSplits(l.rows);
    hide Splits;
    assert SplitsAt(PLAIN, l.rows, [SPLIT_PAIR], 0);
    assert PairIds([SPLIT_PAIR]) == ["o", "p"] + PairIds([]);
    hide PairIds, Sqlite.CoalescedTables, Memory.CoalescedLedger;
    CoalescesAgree(t, l, PLAIN, [SPLIT_PAIR], false);
  }

  lemma SplitPairSplits(rows: map<string, Row>)
    requires rows == Sqlite.RowsOf(SPLIT_TABLE)
    ensures Splits(PLAIN, rows, SPLIT_PAIR)
  {
    ScrapedMatchesArchived("a", "p");
    ScrapedMatchesArchived("b", "p");
    hide Matches;
    assert rows["a"] == Archived("a") && rows["b"] == Archived("b") && rows["p"] == Scraped("p");
    assert "a" in MatchIds(PLAIN, rows, rows["p"]) && "b" in MatchIds(PLAIN, rows, rows["p"]);
    hide MatchIds;
    TwoMembers(MatchIds(PLAIN, rows, rows["p"]), "a", "b");
  }

  // ---------------------------------------------------------------- a repeated payment

  /** The in-memory ledger keeps both payments, SQLite's primary key refuses the second. */
  lemma RepeatedPayment(payment: Payment)
    ensures var ops := [PaymentOp(payment), PaymentOp(payment)];
            && MemoryRun(Ledger(map[], [], []), ops) == (Ledger(map[], [], [payment, payment]), [PaymentReply(None), PaymentReply(None)])
            && SqliteRun(Sqlite.Tables(map[], [], []), ops)
               == (Sqlite.Tables(map[], [], [payment]), [PaymentReply(None), PaymentReply(Some(PaymentExists))])
  {
    var ops := [PaymentOp(payment), PaymentOp(payment)];
    var l, t := Ledger(map[], [], [payment]), Sqlite.Tables(map[], [], [payment]);
    var kept, refused := PaymentReply(None), PaymentReply(Some(PaymentExists));
    assert ops[1..] == [PaymentOp(payment)] && ops[1..][1..] == [];
    assert [] + [payment] == [payment] && [payment] + [payment] == [payment, payment];
    assert [payment][0].transactionId == payment.transactionId;
    assert [kept] + [] == [kept] && [refused] + [] == [refused];
    assert [kept] + [kept] == [kept, kept] && [kept] + [refused] == [kept, refused];
    assert MemoryRun(l, ops[1..]) == (Ledger(map[], [], [payment, payment]), [kept]);
    assert SqliteRun(t, ops[1..]) == (t, [refused]);
  }
}
