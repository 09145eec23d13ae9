/**
 * A failed lookup during `saveDailySales`: `fetchSalesByDate` reports the
 * failure as `null`, the same value it uses for "no sale on this day", and the
 * save then creates a second header for a day that already has one.
 */
module LookupFailure {
  import opened Wrappers
  import opened Ledger
  import opened Menu
  import opened SaleLines
  import opened Store
  import opened SaveSales
  import opened CommitProperties

  /** The store half of the save, as written, for any lines and total. */
  lemma SaveAsWrittenDuplicates(s: Session, db: Db, lines: seq<SaleLine>, total: int, i: nat)
    requires OneSalePerDate(db.sales)
    requires i < |db.sales| && db.sales[i].date == s.currentDate
    ensures var o := SaveLinesAsWritten(s, db, lines, total, Some(FetchHeader));
            && o.saved
            && SalesOn(o.db.sales, s.currentDate) == [db.sales[i], SaleRow(db.nextId, s.currentDate, total)]
  {
    var date := s.currentDate;
    var o := SaveLinesAsWritten(s, db, lines, total, Some(FetchHeader));
    WriteNewResult(db, date, lines, total, Some(FetchHeader));
    var header := SaleRow(db.nextId, date, total);
    assert o.db.sales == db.sales + [header];
    SalesOnUnique(db.sales, date, i);
    SalesOnAppend(db.sales, [header], date);
  }

  /**
   * As written: whenever the day already has its header and the header query
   * fails, the save inserts a second header for the same day, so the store no
   * longer has one sale per date, and from then on every `.single()` lookup
   * of that day comes back empty.
   */
  lemma DuplicateHeaderOnFailedLookup(s: Session, db: Db, i: nat)
    requires WellFormed(db)
    requires i < |db.sales| && db.sales[i].date == s.currentDate
    ensures var o := CommitAsWritten(s, db, Some(FetchHeader));
            && o.saved
            && |SalesOn(o.db.sales, s.currentDate)| == 2
            && !OneSalePerDate(o.db.sales)
            && LookupSale(o.db, s.currentDate, None) == NotFound
  {
    var o := CommitAsWritten(s, db, Some(FetchHeader));
    SaveAsWrittenDuplicates(s, db, CommittedLines(s), LinesTotal(CommittedLines(s)), i);
    var heads := SalesOn(o.db.sales, s.currentDate);
    assert heads[0] in o.db.sales && heads[1] in o.db.sales;
    var j :| 0 <= j < |o.db.sales| && o.db.sales[j] == heads[0];
    var k :| 0 <= k < |o.db.sales| && o.db.sales[k] == heads[1];
    assert heads[0].id < db.nextId == heads[1].id;
  }

  /** A concrete instance: one header on 2024-05-01, the header query fails, the save goes ahead. */
  lemma DuplicateHeaderExample()
    ensures var s := Session([], [], map[], "2024-05-01", map[]);
            var db := Db([], [], [SaleRow(1, "2024-05-01", 200)], [], 2);
            var o := CommitAsWritten(s, db, Some(FetchHeader));
            o.db.sales == [SaleRow(1, "2024-05-01", 200), SaleRow(2, "2024-05-01", 0)]
  {
    var s := Session([], [], map[], "2024-05-01", map[]);
    var db := Db([], [], [SaleRow(1, "2024-05-01", 200)], [], 2);
    assert CommittedLines(s) == [];
    WriteNewResult(db, s.currentDate, [], 0, Some(FetchHeader));
  }

  /**
   * Corrected: the save is abandoned when the lookup fails, so nothing is
   * written, the client state is kept, and one sale per date is preserved
   * whichever call fails.
   */
  lemma FailedLookupAbandonsSave(s: Session, db: Db, fault: Option<Step>)
    requires WellFormed(db)
    requires LookupSale(db, s.currentDate, fault).Failed?
    ensures Commit(s, db, fault) == Outcome(s, db, false)
    ensures WellFormed(Commit(s, db, fault).db)
  {
  }
}
