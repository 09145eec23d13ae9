/**
 * Switching the working date: the ledger is cleared and the new day's stored
 * sale, when the lookup finds one, is loaded back into it.
 */
module DateSwitch {
  import opened Wrappers
  import opened Ledger
  import opened SaleLines
  import opened Store
  import opened SaveSales
  import opened CommitProperties

  /**
   * `setCurrentDate(date)` and the effect it triggers: `resetQuantities()`, then
   * `fetchSalesByDate(date)`, which on success replaces the ledger with the
   * stored quantities and caches the sale.
   */
  function SelectDate(s: Session, db: Db, date: Date, fault: Option<Step>): (r: Session)
    ensures r.currentDate == date && r.dishes == s.dishes && r.categories == s.categories
    ensures LookupSale(db, date, fault).Found? ==>
              && r.ledger == LoadLedger(LookupSale(db, date, fault).sale.dishes)
              && date in r.dailySales && r.dailySales[date] == LookupSale(db, date, fault).sale
    ensures !LookupSale(db, date, fault).Found? ==> r.ledger == map[] && r.dailySales == s.dailySales
  {
    var cleared := s.(currentDate := date, ledger := ResetQuantities());
    match FetchSalesByDate(db, date, fault)
    case Some(sale) => Publish(cleared, date, sale)
    case None => cleared
  }

  /**
   * Committing a day and then opening it again gives back the ledger's positive
   * entries: every counter shows the count it showed before the commit.
   */
  lemma ReloadAfterCommit(s: Session, db: Db)
    requires WellFormed(db)
    ensures var o := Commit(s, db, None);
            SelectDate(o.session, o.db, s.currentDate, None).ledger == PositivePart(s.ledger)
  {
    var o := Commit(s, db, None);
    CommitReadBack(s, db, None);
    LoadLedgerOfBuildItems(s.ledger, s.dishes);
  }

  /** After the reload every dish's counter reads what it read before the commit. */
  lemma ReloadKeepsCounters(s: Session, db: Db, id: DishId)
    requires WellFormed(db)
    ensures var o := Commit(s, db, None);
            Qty(SelectDate(o.session, o.db, s.currentDate, None).ledger, id) == Qty(s.ledger, id)
  {
    ReloadAfterCommit(s, db);
  }
}
