/**
 * Read-back and commit of a day's sale in the normalised shop:
 * `fetchSalesByDate` and `saveDailySales` of the shop context.
 *
 * Every remote call may fail. A commit is given the one call that fails, if
 * any (`fault`); the calls before it have taken effect, the calls after it
 * are never made. Nothing is rolled back, exactly as in the shop.
 */
module SaveSales {
  import opened Wrappers
  import opened Ledger
  import opened Menu
  import opened SaleLines
  import opened Store

  /** A day's sale as the shop context caches it (`DailySale`). */
  datatype DailySale = DailySale(id: Option<nat>, date: Date, dishes: seq<SaleLine>, totalSales: int)

  /** The client-side state the shop context keeps. */
  datatype Session = Session(
    categories: seq<Category>,
    dishes: seq<Dish>,
    dailySales: map<Date, DailySale>,
    currentDate: Date,
    ledger: Ledger)

  /** The remote calls a read-back or a commit makes, in the order it makes them. */
  datatype Step = FetchHeader | FetchItems | UpdateTotal | DeleteOldItems | InsertNewItems | CreateHeader

  /** The three outcomes the lookup of a day's sale can have before the shop collapses two of them. */
  datatype Lookup = Found(sale: DailySale) | NotFound | Failed

  /**
   * The two queries of `fetchSalesByDate`. `.single()` returns a row only when
   * exactly one header matches; zero or several matches come back as the
   * "no row" code, which the shop treats as "no sale".
   */
  function LookupSale(db: Db, date: Date, fault: Option<Step>): (r: Lookup)
    ensures r.Failed? <==> fault == Some(FetchHeader) || (fault == Some(FetchItems) && |SalesOn(db.sales, date)| == 1)
    ensures r.NotFound? <==> fault != Some(FetchHeader) && |SalesOn(db.sales, date)| != 1
    ensures r.Found? ==>
              var h := SalesOn(db.sales, date)[0];
              && |SalesOn(db.sales, date)| == 1
              && r.sale == DailySale(Some(h.id), h.date, AsLines(ItemsOf(db.saleItems, h.id)), h.totalAmount)
  {
    if fault == Some(FetchHeader) then Failed
    else
      var headers := SalesOn(db.sales, date);
      if |headers| != 1 then NotFound
      else if fault == Some(FetchItems) then Failed
      else
        var h := headers[0];
        Found(DailySale(Some(h.id), h.date, AsLines(ItemsOf(db.saleItems, h.id)), h.totalAmount))
  }

  /** `fetchSalesByDate`'s result: a failed query is reported as `null`, like a missing sale. */
  function FetchSalesByDate(db: Db, date: Date, fault: Option<Step>): (r: Option<DailySale>)
    ensures r.Some? <==> LookupSale(db, date, fault).Found?
    ensures r.Some? ==> r.value == LookupSale(db, date, fault).sale
  {
    match LookupSale(db, date, fault)
    case Found(sale) => Some(sale)
    case _ => None
  }

  /**
   * The side effect of a successful `fetchSalesByDate`: the ledger is replaced
   * by the stored quantities and the sale is cached under its date.
   */
  function Publish(s: Session, date: Date, sale: DailySale): (r: Session)
    ensures r.ledger == LoadLedger(sale.dishes)
    ensures date in r.dailySales && r.dailySales[date] == sale
    ensures forall d :: d in s.dailySales && d != date ==> d in r.dailySales && r.dailySales[d] == s.dailySales[d]
    ensures r.categories == s.categories && r.dishes == s.dishes && r.currentDate == s.currentDate
  {
    s.(ledger := LoadLedger(sale.dishes), dailySales := s.dailySales[date := sale])
  }

  /** The tables after a write sequence, and whether every call of it succeeded. */
  datatype Written = Written(db: Db, ok: bool)

  /**
   * The write half of `saveDailySales`. With an existing header: update its
   * total, delete its items, insert the new ones (skipped when there are none).
   * Without: insert a header `{date, total}`, then its items (skipped when none).
   */
  function WriteSale(db: Db, date: Date, existing: Option<nat>, lines: seq<SaleLine>, total: int, fault: Option<Step>): (w: Written)
    ensures existing.None? && fault == Some(CreateHeader) ==> w == Written(db, false)
    ensures existing.Some? && fault == Some(UpdateTotal) ==> w == Written(db, false)
    ensures fault.None? ==> w.ok
    ensures w.db.categories == db.categories && w.db.dishes == db.dishes
  {
    match existing
    case Some(id) =>
      if fault == Some(UpdateTotal) then Written(db, false)
      else
        var db1 := UpdateSaleTotal(db, id, total);
        if fault == Some(DeleteOldItems) then Written(db1, false)
        else
          var db2 := DeleteItemsOf(db1, id);
          if |lines| == 0 then Written(db2, true)
          else if fault == Some(InsertNewItems) then Written(db2, false)
          else Written(InsertItems(db2, id, lines), true)
    case None =>
      if fault == Some(CreateHeader) then Written(db, false)
      else
        var (db1, id) := InsertSale(db, date, total);
        if |lines| == 0 then Written(db1, true)
        else if fault == Some(InsertNewItems) then Written(db1, false)
        else Written(InsertItems(db1, id, lines), true)
  }

  /**
   * The header `saveDailySales` updates: `existingSale?.id` when it is truthy.
   * A found sale without an id, or with id 0, takes the insert path.
   */
  function UpdateTarget(sale: DailySale): (r: Option<nat>)
    ensures r.Some? <==> sale.id.Some? && sale.id.value != 0
    ensures r.Some? ==> r == sale.id
  {
    match sale.id
    case Some(id) => if id == 0 then None else Some(id)
    case None => None
  }

  /** What a commit leaves behind: the client state, the tables, and whether the save went through. */
  datatype Outcome = Outcome(session: Session, db: Db, saved: bool)

  /**
   * The end of `saveDailySales`: on success the day's sale is cached as
   * `{date, dishes, totalSales}` and the ledger is emptied; on failure only
   * the error is reported and the client state is left as it is.
   */
  function Finish(s: Session, lines: seq<SaleLine>, total: int, w: Written): (o: Outcome)
    ensures o.db == w.db && o.saved == w.ok
    ensures o.saved ==> o.session.ledger == map[]
    ensures o.saved ==> s.currentDate in o.session.dailySales
                        && o.session.dailySales[s.currentDate] == DailySale(None, s.currentDate, lines, total)
    ensures !o.saved ==> o.session == s
  {
    if w.ok then
      Outcome(s.(dailySales := s.dailySales[s.currentDate := DailySale(None, s.currentDate, lines, total)],
                 ledger := ResetQuantities()), w.db, true)
    else Outcome(s, w.db, false)
  }

  /** The item list `saveDailySales` computes from the ledger and the menu before touching the store. */
  function CommittedLines(s: Session): (r: seq<SaleLine>)
    ensures LoadLedger(r) == PositivePart(s.ledger)
    ensures forall i :: 0 <= i < |r| ==> r[i].price == PriceOf(s.dishes, r[i].dishId)
  {
    LoadLedgerOfBuildItems(s.ledger, s.dishes);
    BuildItems(s.ledger, s.dishes)
  }

  /**
   * The store half of `saveDailySales` for the computed `lines` and `total`,
   * with a failed lookup treated as a failure of the save: nothing is written
   * and the client state is unchanged.
   */
  function SaveLines(s: Session, db: Db, lines: seq<SaleLine>, total: int, fault: Option<Step>): (o: Outcome)
    ensures LookupSale(db, s.currentDate, fault).Failed? ==> o == Outcome(s, db, false)
    ensures fault.None? ==> o.saved
    ensures o.saved ==> o.session.ledger == map[]
    ensures o.saved ==> s.currentDate in o.session.dailySales
                        && o.session.dailySales[s.currentDate] == DailySale(None, s.currentDate, lines, total)
    ensures !o.saved && !LookupSale(db, s.currentDate, fault).Found? ==> o.session == s
    ensures !o.saved && LookupSale(db, s.currentDate, fault).Found? ==>
              o.session.ledger == LoadLedger(LookupSale(db, s.currentDate, fault).sale.dishes)
  {
    match LookupSale(db, s.currentDate, fault)
    case Failed => Outcome(s, db, false)
    case NotFound => Finish(s, lines, total, WriteSale(db, s.currentDate, None, lines, total, fault))
    case Found(sale) =>
      Finish(Publish(s, s.currentDate, sale), lines, total, WriteSale(db, s.currentDate, UpdateTarget(sale), lines, total, fault))
  }

  /**
   * `saveDailySales`: build the lines, total them, then look the day up and
   * write. On success the ledger is emptied and the day's sale cached; on a
   * failure the ledger is left alone unless the lookup had found a stored
   * sale, in which case it holds that sale's quantities.
   */
  function Commit(s: Session, db: Db, fault: Option<Step>): (o: Outcome)
    ensures LookupSale(db, s.currentDate, fault).Failed? ==> o == Outcome(s, db, false)
    ensures fault.None? ==> o.saved
    ensures o.saved ==> && o.session.ledger == map[]
                        && s.currentDate in o.session.dailySales
                        && LoadLedger(o.session.dailySales[s.currentDate].dishes) == PositivePart(s.ledger)
                        && o.session.dailySales[s.currentDate].totalSales
                           == LinesTotal(o.session.dailySales[s.currentDate].dishes)
    ensures !o.saved && !LookupSale(db, s.currentDate, fault).Found? ==> o.session == s
  {
    SaveLines(s, db, CommittedLines(s), LinesTotal(CommittedLines(s)), fault)
  }

  /**
   * The store half of `saveDailySales` as the shop writes it: the lookup goes
   * through `fetchSalesByDate`, whose `null` on a failed query sends the save
   * down the "no sale yet" path.
   */
  function SaveLinesAsWritten(s: Session, db: Db, lines: seq<SaleLine>, total: int, fault: Option<Step>): (o: Outcome)
    ensures !LookupSale(db, s.currentDate, fault).Failed? ==> o == SaveLines(s, db, lines, total, fault)
    ensures LookupSale(db, s.currentDate, fault).Failed? ==>
              o == Finish(s, lines, total, WriteSale(db, s.currentDate, None, lines, total, fault))
  {
    match FetchSalesByDate(db, s.currentDate, fault)
    case None => Finish(s, lines, total, WriteSale(db, s.currentDate, None, lines, total, fault))
    case Some(sale) =>
      Finish(Publish(s, s.currentDate, sale), lines, total, WriteSale(db, s.currentDate, UpdateTarget(sale), lines, total, fault))
  }

  /**
   * `saveDailySales` as the shop writes it. It agrees with `Commit` unless the
   * lookup fails; then, the lookup being the one failing call, the save goes
   * through and appends a new header for the day, whatever headers the day
   * already has.
   */
  function CommitAsWritten(s: Session, db: Db, fault: Option<Step>): (o: Outcome)
    ensures !LookupSale(db, s.currentDate, fault).Failed? ==> o == Commit(s, db, fault)
    ensures LookupSale(db, s.currentDate, fault).Failed? ==>
              && o.saved
              && o.db.sales == db.sales + [SaleRow(db.nextId, s.currentDate, LinesTotal(CommittedLines(s)))]
  {
    var lines := CommittedLines(s);
    if LookupSale(db, s.currentDate, fault).Failed? then
      WriteNewAppendsHeader(db, s.currentDate, lines, LinesTotal(lines), fault);
      SaveLinesAsWritten(s, db, lines, LinesTotal(lines), fault)
    else SaveLinesAsWritten(s, db, lines, LinesTotal(lines), fault)
  }

  /** Down the insert path, with no insert failing, the header `{date, total}` is appended to the sales. */
  lemma WriteNewAppendsHeader(db: Db, date: Date, lines: seq<SaleLine>, total: int, fault: Option<Step>)
    requires fault != Some(CreateHeader) && fault != Some(InsertNewItems)
    ensures WriteSale(db, date, None, lines, total, fault).ok
    ensures WriteSale(db, date, None, lines, total, fault).db.sales == db.sales + [SaleRow(db.nextId, date, total)]
  {
  }
}
