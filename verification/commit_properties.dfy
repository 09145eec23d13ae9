/**
 * What a commit does to the tables: read-back, replacement of the day's items,
 * the one-header-per-date invariant, and the days it does not touch.
 */
module CommitProperties {
  import opened Wrappers
  import opened Ledger
  import opened Menu
  import opened SaleLines
  import opened Store
  import opened SaveSales

  /** The tables a successful write leaves when the day had no header yet. */
  lemma WriteNewResult(db: Db, date: Date, lines: seq<SaleLine>, total: int, fault: Option<Step>)
    requires WriteSale(db, date, None, lines, total, fault).ok
    ensures WriteSale(db, date, None, lines, total, fault).db
            == InsertItems(InsertSale(db, date, total).0, db.nextId, lines)
  {
    if |lines| == 0 {
      var db1 := InsertSale(db, date, total).0;
      assert InsertItems(db1, db.nextId, lines) == db1;
    }
  }

  /** The tables a successful write leaves when the day's header `id` existed. */
  lemma WriteExistingResult(db: Db, date: Date, id: nat, lines: seq<SaleLine>, total: int, fault: Option<Step>)
    requires WriteSale(db, date, Some(id), lines, total, fault).ok
    ensures WriteSale(db, date, Some(id), lines, total, fault).db
            == InsertItems(DeleteItemsOf(UpdateSaleTotal(db, id, total), id), id, lines)
  {
    if |lines| == 0 {
      var db2 := DeleteItemsOf(UpdateSaleTotal(db, id, total), id);
      assert InsertItems(db2, id, lines) == db2;
    }
  }

  /** Appending the rows of `lines` under a sale that had no items makes them its items. */
  lemma ItemsAfterInsert(db: Db, saleId: nat, lines: seq<SaleLine>)
    requires ItemsOf(db.saleItems, saleId) == []
    ensures AsLines(ItemsOf(InsertItems(db, saleId, lines).saleItems, saleId)) == lines
  {
    var rows := ItemRows(saleId, lines, db.nextId);
    ItemsOfAppend(db.saleItems, rows, saleId);
    ItemsOfAll(rows, saleId);
  }

  /** A fresh header followed by its items reads back as exactly that sale. */
  lemma WriteNewReadBack(db: Db, date: Date, lines: seq<SaleLine>, total: int, fault: Option<Step>)
    requires forall j :: 0 <= j < |db.sales| ==> db.sales[j].date != date
    requires forall j :: 0 <= j < |db.saleItems| ==> db.saleItems[j].saleId < db.nextId
    requires WriteSale(db, date, None, lines, total, fault).ok
    ensures LookupSale(WriteSale(db, date, None, lines, total, fault).db, date, None)
            == Found(DailySale(Some(db.nextId), date, lines, total))
  {
    WriteNewResult(db, date, lines, total, fault);
    var db1 := InsertSale(db, date, total).0;
    var header := SaleRow(db.nextId, date, total);
    SalesOnAppend(db.sales, [header], date);
    NoSalesOn(db.sales, date);
    ItemsOfNone(db.saleItems, db.nextId);
    ItemsAfterInsert(db1, db.nextId, lines);
    var db3 := InsertItems(db1, db.nextId, lines);
    assert SalesOn(db3.sales, date) == [header];
  }

  /** Updating an existing header and replacing its items reads back as exactly the new sale. */
  lemma WriteExistingReadBack(db: Db, date: Date, i: nat, lines: seq<SaleLine>, total: int, fault: Option<Step>)
    requires OneSalePerDate(db.sales)
    requires i < |db.sales| && db.sales[i].date == date
    requires WriteSale(db, date, Some(db.sales[i].id), lines, total, fault).ok
    ensures LookupSale(WriteSale(db, date, Some(db.sales[i].id), lines, total, fault).db, date, None)
            == Found(DailySale(Some(db.sales[i].id), date, lines, total))
  {
    var id := db.sales[i].id;
    WriteExistingResult(db, date, id, lines, total, fault);
    var db1 := UpdateSaleTotal(db, id, total);
    var db2 := DeleteItemsOf(db1, id);
    assert OneSalePerDate(db1.sales);
    assert db1.sales[i] == SaleRow(id, date, total);
    SalesOnUnique(db1.sales, date, i);
    ItemsAfterInsert(db2, id, lines);
  }

  /**
   * Read-back after a successful save: the day has exactly one header, its
   * total is the saved total and its items are exactly the saved lines.
   * Whatever the day held before is replaced, not added to.
   */
  lemma SaveReadBack(s: Session, db: Db, lines: seq<SaleLine>, total: int, fault: Option<Step>)
    requires WellFormed(db)
    requires SaveLines(s, db, lines, total, fault).saved
    ensures LookupSale(SaveLines(s, db, lines, total, fault).db, s.currentDate, None).Found?
    ensures LookupSale(SaveLines(s, db, lines, total, fault).db, s.currentDate, None).sale.date == s.currentDate
    ensures LookupSale(SaveLines(s, db, lines, total, fault).db, s.currentDate, None).sale.dishes == lines
    ensures LookupSale(SaveLines(s, db, lines, total, fault).db, s.currentDate, None).sale.totalSales == total
  {
    var date := s.currentDate;
    var look := LookupSale(db, date, fault);
    if look.NotFound? {
      NoHeaderOnDate(db.sales, date);
      WriteNewReadBack(db, date, lines, total, fault);
    } else if look.Found? {
      var h := SalesOn(db.sales, date)[0];
      assert h in SalesOn(db.sales, date);
      var i :| 0 <= i < |db.sales| && db.sales[i] == h;
      WriteExistingReadBack(db, date, i, lines, total, fault);
    } else {
      assert false;
    }
  }

  /**
   * Read-back after a successful commit: the day's header total is the sum of
   * `price * quantity` over its items, and the items are the committed lines.
   */
  lemma CommitReadBack(s: Session, db: Db, fault: Option<Step>)
    requires WellFormed(db)
    requires Commit(s, db, fault).saved
    ensures LookupSale(Commit(s, db, fault).db, s.currentDate, None).Found?
    ensures LookupSale(Commit(s, db, fault).db, s.currentDate, None).sale.dishes == CommittedLines(s)
    ensures LookupSale(Commit(s, db, fault).db, s.currentDate, None).sale.totalSales
            == LinesTotal(LookupSale(Commit(s, db, fault).db, s.currentDate, None).sale.dishes)
  {
    SaveReadBack(s, db, CommittedLines(s), LinesTotal(CommittedLines(s)), fault);
  }

  /**
   * Committing twice on the same day keeps only the second commit's lines and
   * total: the day's items are replaced, never accumulated.
   */
  lemma RecommitReplaces(s1: Session, s2: Session, db: Db)
    requires WellFormed(db)
    requires s1.currentDate == s2.currentDate
    ensures var db2 := Commit(s2, Commit(s1, db, None).db, None).db;
            var r := LookupSale(db2, s2.currentDate, None);
            && r.Found?
            && r.sale.dishes == CommittedLines(s2)
            && r.sale.totalSales == LinesTotal(CommittedLines(s2))
  {
    var db1 := Commit(s1, db, None).db;
    SavePreservesWellFormed(s1, db, CommittedLines(s1), LinesTotal(CommittedLines(s1)), None);
    SaveReadBack(s2, db1, CommittedLines(s2), LinesTotal(CommittedLines(s2)), None);
  }

  lemma WriteNewWellFormed(db: Db, date: Date, lines: seq<SaleLine>, total: int, fault: Option<Step>)
    requires WellFormed(db)
    requires forall j :: 0 <= j < |db.sales| ==> db.sales[j].date != date
    ensures WellFormed(WriteSale(db, date, None, lines, total, fault).db)
  {
    if fault != Some(CreateHeader) {
      var (db1, id) := InsertSale(db, date, total);
      InsertSaleWellFormed(db, date, total);
      InsertItemsWellFormed(db1, id, lines);
    }
  }

  lemma WriteExistingWellFormed(db: Db, date: Date, i: nat, lines: seq<SaleLine>, total: int, fault: Option<Step>)
    requires WellFormed(db)
    requires i < |db.sales|
    ensures WellFormed(WriteSale(db, date, Some(db.sales[i].id), lines, total, fault).db)
  {
    var id := db.sales[i].id;
    var db1 := UpdateSaleTotal(db, id, total);
    UpdateSaleTotalWellFormed(db, id, total);
    var db2 := DeleteItemsOf(db1, id);
    DeleteItemsOfWellFormed(db1, id);
    InsertItemsWellFormed(db2, id, lines);
  }

  /**
   * Whichever call fails, a save never leaves two headers on one date (nor an
   * id outside the store's numbering): the invariant the shop relies on when
   * it looks a day up with `.single()`.
   */
  lemma SavePreservesWellFormed(s: Session, db: Db, lines: seq<SaleLine>, total: int, fault: Option<Step>)
    requires WellFormed(db)
    ensures WellFormed(SaveLines(s, db, lines, total, fault).db)
  {
    var date := s.currentDate;
    var look := LookupSale(db, date, fault);
    if look.NotFound? {
      NoHeaderOnDate(db.sales, date);
      WriteNewWellFormed(db, date, lines, total, fault);
    } else if look.Found? {
      var h := SalesOn(db.sales, date)[0];
      assert h in SalesOn(db.sales, date);
      var i :| 0 <= i < |db.sales| && db.sales[i] == h;
      WriteExistingWellFormed(db, date, i, lines, total, fault);
    }
  }

  /** The commit-level form of the invariant: no commit, whichever call fails, duplicates a day. */
  lemma CommitPreservesWellFormed(s: Session, db: Db, fault: Option<Step>)
    requires WellFormed(db)
    ensures WellFormed(Commit(s, db, fault).db)
  {
    SavePreservesWellFormed(s, db, CommittedLines(s), LinesTotal(CommittedLines(s)), fault);
  }

  /** `db2` shows the same headers for `other` as `db`, each with the same items. */
  ghost predicate KeepsDay(db: Db, db2: Db, other: Date) {
    && SalesOn(db2.sales, other) == SalesOn(db.sales, other)
    && forall h :: h in SalesOn(db.sales, other) ==> ItemsOf(db2.saleItems, h.id) == ItemsOf(db.saleItems, h.id)
  }

  lemma KeepsDayLookup(db: Db, db2: Db, other: Date, f: Option<Step>)
    requires KeepsDay(db, db2, other)
    ensures LookupSale(db2, other, f) == LookupSale(db, other, f)
  {
    var heads := SalesOn(db.sales, other);
    if |heads| == 1 {
      assert heads[0] in heads;
    }
  }

  lemma InsertSaleKeepsDay(db: Db, date: Date, total: int, other: Date)
    requires other != date
    ensures KeepsDay(db, InsertSale(db, date, total).0, other)
  {
    var header := SaleRow(db.nextId, date, total);
    SalesOnAppend(db.sales, [header], other);
  }

  lemma InsertItemsKeepsDay(db: Db, saleId: nat, lines: seq<SaleLine>, other: Date)
    requires forall h :: h in SalesOn(db.sales, other) ==> h.id != saleId
    ensures KeepsDay(db, InsertItems(db, saleId, lines), other)
  {
    var rows := ItemRows(saleId, lines, db.nextId);
    forall h | h in SalesOn(db.sales, other)
      ensures ItemsOf(db.saleItems + rows, h.id) == ItemsOf(db.saleItems, h.id)
    {
      ItemsOfAppend(db.saleItems, rows, h.id);
      ItemsOfNone(rows, h.id);
    }
  }

  lemma UpdateSaleTotalKeepsDay(db: Db, id: nat, total: int, date: Date, other: Date)
    requires forall j :: 0 <= j < |db.sales| && db.sales[j].id == id ==> db.sales[j].date == date
    requires other != date
    ensures KeepsDay(db, UpdateSaleTotal(db, id, total), other)
  {
    SetTotalOtherDates(db.sales, id, total, date, other);
  }

  lemma DeleteItemsOfKeepsDay(db: Db, saleId: nat, other: Date)
    requires forall h :: h in SalesOn(db.sales, other) ==> h.id != saleId
    ensures KeepsDay(db, DeleteItemsOf(db, saleId), other)
  {
  }

  /** A fresh header and its items on `date` leave every lookup of another day as it was. */
  lemma WriteNewKeepsOtherDays(db: Db, date: Date, lines: seq<SaleLine>, total: int, fault: Option<Step>, other: Date)
    requires WellFormed(db)
    requires other != date
    ensures KeepsDay(db, WriteSale(db, date, None, lines, total, fault).db, other)
  {
    var o := WriteSale(db, date, None, lines, total, fault).db;
    if fault != Some(CreateHeader) {
      var (db1, id) := InsertSale(db, date, total);
      InsertSaleKeepsDay(db, date, total, other);
      if o != db1 {
        assert o == InsertItems(db1, id, lines);
        forall h | h in SalesOn(db1.sales, other) ensures h.id != id {
          assert h in db.sales;
        }
        InsertItemsKeepsDay(db1, id, lines, other);
      }
    }
  }

  /** Rewriting the header `db.sales[i]` dated `date` leaves every lookup of another day as it was. */
  lemma WriteExistingKeepsOtherDays(db: Db, date: Date, i: nat, lines: seq<SaleLine>, total: int, fault: Option<Step>, other: Date)
    requires WellFormed(db)
    requires i < |db.sales| && db.sales[i].date == date
    requires other != date
    ensures KeepsDay(db, WriteSale(db, date, Some(db.sales[i].id), lines, total, fault).db, other)
  {
    var id := db.sales[i].id;
    var o := WriteSale(db, date, Some(id), lines, total, fault).db;
    if fault != Some(UpdateTotal) {
      var db1 := UpdateSaleTotal(db, id, total);
      UpdateSaleTotalKeepsDay(db, id, total, date, other);
      forall h | h in SalesOn(db1.sales, other) ensures h.id != id {
        assert h in SalesOn(db.sales, other);
      }
      if fault != Some(DeleteOldItems) {
        var db2 := DeleteItemsOf(db1, id);
        DeleteItemsOfKeepsDay(db1, id, other);
        if o != db2 {
          assert o == InsertItems(db2, id, lines);
          InsertItemsKeepsDay(db2, id, lines, other);
        }
      }
    }
  }

  /**
   * A commit on one day never changes what a lookup of another day returns:
   * neither that day's header nor its items.
   */
  lemma CommitLeavesOtherDays(s: Session, db: Db, fault: Option<Step>, other: Date, f: Option<Step>)
    requires WellFormed(db)
    requires other != s.currentDate
    ensures LookupSale(Commit(s, db, fault).db, other, f) == LookupSale(db, other, f)
  {
    var date := s.currentDate;
    var lines := CommittedLines(s);
    var total := LinesTotal(lines);
    var look := LookupSale(db, date, fault);
    var o := Commit(s, db, fault).db;
    if look.NotFound? {
      WriteNewKeepsOtherDays(db, date, lines, total, fault, other);
      KeepsDayLookup(db, o, other, f);
    } else if look.Found? {
      var h := SalesOn(db.sales, date)[0];
      assert h in SalesOn(db.sales, date);
      var i :| 0 <= i < |db.sales| && db.sales[i] == h;
      WriteExistingKeepsOtherDays(db, date, i, lines, total, fault, other);
      KeepsDayLookup(db, o, other, f);
    }
  }

  /**
   * A save on a day with no header adds exactly one header `{date, total}`
   * and one item row per line (none when there are none).
   */
  lemma SaveCreatesOneHeader(s: Session, db: Db, lines: seq<SaleLine>, total: int, fault: Option<Step>)
    requires forall j :: 0 <= j < |db.sales| ==> db.sales[j].date != s.currentDate
    requires SaveLines(s, db, lines, total, fault).saved
    ensures SaveLines(s, db, lines, total, fault).db.sales == db.sales + [SaleRow(db.nextId, s.currentDate, total)]
    ensures SaveLines(s, db, lines, total, fault).db.saleItems == db.saleItems + ItemRows(db.nextId, lines, db.nextId + 1)
  {
    NoSalesOn(db.sales, s.currentDate);
    WriteNewResult(db, s.currentDate, lines, total, fault);
  }

  /** The commit-level form: one new header whose total is the committed lines' total. */
  lemma CommitCreatesOneHeader(s: Session, db: Db, fault: Option<Step>)
    requires forall j :: 0 <= j < |db.sales| ==> db.sales[j].date != s.currentDate
    requires Commit(s, db, fault).saved
    ensures Commit(s, db, fault).db.sales
            == db.sales + [SaleRow(db.nextId, s.currentDate, LinesTotal(CommittedLines(s)))]
    ensures Commit(s, db, fault).db.saleItems
            == db.saleItems + ItemRows(db.nextId, CommittedLines(s), db.nextId + 1)
  {
    SaveCreatesOneHeader(s, db, CommittedLines(s), LinesTotal(CommittedLines(s)), fault);
  }

  /** Reading back a day committed twice, in terms of the two commits' lines. */
  lemma CommitTwice(db: Db, s1: Session, s2: Session)
    requires WellFormed(db)
    requires s2.currentDate == s1.currentDate
    ensures var r1 := LookupSale(Commit(s1, db, None).db, s1.currentDate, None);
            r1.Found? && r1.sale.dishes == CommittedLines(s1) && r1.sale.totalSales == LinesTotal(CommittedLines(s1))
    ensures var r2 := LookupSale(Commit(s2, Commit(s1, db, None).db, None).db, s1.currentDate, None);
            r2.Found? && r2.sale.dishes == CommittedLines(s2) && r2.sale.totalSales == LinesTotal(CommittedLines(s2))
  {
    CommitReadBack(s1, db, None);
    RecommitReplaces(s1, s2, db);
  }

  /** The lines committed for the example menu when only dish 1 has a positive count. */
  lemma ExampleLines(s: Session, q: nat)
    requires s.dishes == [Dish(1, "Classic Veg Momo", 1, Some("Steamed"), 100), Dish(2, "Momo Soup", 4, Some("Soup"), 50)]
    requires s.ledger == map[1 := q, 2 := 0] || s.ledger == map[1 := q]
    requires q > 0
    ensures CommittedLines(s) == [SaleLine(1, q, 100)]
    ensures LinesTotal(CommittedLines(s)) == 100 * q
  {
    assert DistinctIds(s.dishes);
    assert PriceOf(s.dishes, 1) == 100;
    BuildItemsSingle(s.ledger, s.dishes, 1);
  }

  /**
   * The worked example: dish 1 at 100 and dish 2 at 50, ledger `{1: 2, 2: 0}`
   * commits the one line `(1, 2, 100)` with total 200; committing `{1: 3}` on
   * the same day afterwards leaves the one line `(1, 3, 100)` with total 300.
   */
  lemma CommitExample(db: Db, s1: Session, s2: Session)
    requires WellFormed(db)
    requires s1.dishes == [Dish(1, "Classic Veg Momo", 1, Some("Steamed"), 100), Dish(2, "Momo Soup", 4, Some("Soup"), 50)]
    requires s1.ledger == map[1 := 2, 2 := 0]
    requires s2 == s1.(ledger := map[1 := 3])
    ensures var r1 := LookupSale(Commit(s1, db, None).db, s1.currentDate, None);
            r1.Found? && r1.sale.dishes == [SaleLine(1, 2, 100)] && r1.sale.totalSales == 200
    ensures var r2 := LookupSale(Commit(s2, Commit(s1, db, None).db, None).db, s1.currentDate, None);
            r2.Found? && r2.sale.dishes == [SaleLine(1, 3, 100)] && r2.sale.totalSales == 300
  {
    ExampleLines(s1, 2);
    ExampleLines(s2, 3);
    CommitTwice(db, s1, s2);
  }
}
