/**
 * The remote store of the normalised shop as an in-memory record of tables.
 * Every remote call the shop context makes is a pure function from the old
 * tables to the new ones; the row order of a table is the order `select`
 * returns its rows in.
 */
module Store {
  import opened Wrappers
  import opened Ledger
  import opened SaleLines

  /** Calendar dates are opaque keys (`yyyy-mm-dd` strings in the shop). */
  type Date = string

  datatype CategoryRow = CategoryRow(id: nat, name: string)
  datatype DishRow = DishRow(id: nat, name: string, categoryId: int, price: nat)
  datatype SaleRow = SaleRow(id: nat, date: Date, totalAmount: int)
  datatype SaleItemRow = SaleItemRow(id: nat, saleId: nat, dishId: DishId, quantity: nat, price: nat)

  /**
   * The tables `categories`, `dishes`, `sales` and `sale_items`. `nextId` is the
   * next value the store hands out as a row id (one counter shared by all tables).
   */
  datatype Db = Db(
    categories: seq<CategoryRow>,
    dishes: seq<DishRow>,
    sales: seq<SaleRow>,
    saleItems: seq<SaleItemRow>,
    nextId: nat)

  /**
   * Every id in use is below `nextId`, sale ids start at 1 as serial ids do,
   * and at most one sale header exists per date.
   */
  ghost predicate WellFormed(db: Db) {
    && 0 < db.nextId
    && (forall i :: 0 <= i < |db.sales| ==> 0 < db.sales[i].id < db.nextId)
    && (forall i :: 0 <= i < |db.saleItems| ==> db.saleItems[i].saleId < db.nextId)
    && (forall i :: 0 <= i < |db.categories| ==> db.categories[i].id < db.nextId)
    && (forall i :: 0 <= i < |db.dishes| ==> db.dishes[i].id < db.nextId)
    && OneSalePerDate(db.sales)
    && UniqueSaleIds(db.sales)
  }

  ghost predicate UniqueSaleIds(sales: seq<SaleRow>) {
    forall i, j :: 0 <= i < |sales| && 0 <= j < |sales| && sales[i].id == sales[j].id ==> i == j
  }

  ghost predicate OneSalePerDate(sales: seq<SaleRow>) {
    forall i, j :: 0 <= i < |sales| && 0 <= j < |sales| && sales[i].date == sales[j].date ==> i == j
  }

  /** `from("sales").select("*").eq("date", date)`. */
  function SalesOn(sales: seq<SaleRow>, date: Date): (r: seq<SaleRow>)
    ensures forall row :: row in r <==> row in sales && row.date == date
    ensures |r| <= |sales|
  {
    if |sales| == 0 then []
    else (if sales[0].date == date then [sales[0]] else []) + SalesOn(sales[1..], date)
  }

  lemma {:induction false} SalesOnAppend(a: seq<SaleRow>, b: seq<SaleRow>, date: Date)
    ensures SalesOn(a + b, date) == SalesOn(a, date) + SalesOn(b, date)
    decreases |a|
  {
    if |a| == 0 {
      assert a + b == b;
    } else {
      assert (a + b)[1..] == a[1..] + b;
      SalesOnAppend(a[1..], b, date);
    }
  }

  /** Under one header per date, a header present for the date is the only row the query returns. */
  lemma {:induction false} SalesOnUnique(sales: seq<SaleRow>, date: Date, i: nat)
    requires OneSalePerDate(sales)
    requires i < |sales| && sales[i].date == date
    ensures SalesOn(sales, date) == [sales[i]]
    decreases |sales|
  {
    if i == 0 {
      NoSalesOn(sales[1..], date);
    } else {
      SalesOnUnique(sales[1..], date, i - 1);
    }
  }

  lemma {:induction false} NoSalesOn(sales: seq<SaleRow>, date: Date)
    requires forall j :: 0 <= j < |sales| ==> sales[j].date != date
    ensures SalesOn(sales, date) == []
    decreases |sales|
  {
    if |sales| > 0 {
      NoSalesOn(sales[1..], date);
    }
  }

  /** `from("sale_items").select("*").eq("sale_id", saleId)`. */
  function ItemsOf(items: seq<SaleItemRow>, saleId: nat): (r: seq<SaleItemRow>)
    ensures forall row :: row in r <==> row in items && row.saleId == saleId
  {
    if |items| == 0 then []
    else (if items[0].saleId == saleId then [items[0]] else []) + ItemsOf(items[1..], saleId)
  }

  lemma {:induction false} ItemsOfAppend(a: seq<SaleItemRow>, b: seq<SaleItemRow>, saleId: nat)
    ensures ItemsOf(a + b, saleId) == ItemsOf(a, saleId) + ItemsOf(b, saleId)
    decreases |a|
  {
    if |a| == 0 {
      assert a + b == b;
    } else {
      assert (a + b)[1..] == a[1..] + b;
      ItemsOfAppend(a[1..], b, saleId);
    }
  }

  /** The read side of a sale item: `{dishId, quantity, price}`. */
  function AsLines(items: seq<SaleItemRow>): (r: seq<SaleLine>)
    ensures |r| == |items|
    ensures forall i :: 0 <= i < |items| ==> r[i] == SaleLine(items[i].dishId, items[i].quantity, items[i].price)
  {
    seq(|items|, i requires 0 <= i < |items| => SaleLine(items[i].dishId, items[i].quantity, items[i].price))
  }

  /** The rows `insert(saleItems)` adds for `lines` under `saleId`, numbered from `firstId`. */
  function ItemRows(saleId: nat, lines: seq<SaleLine>, firstId: nat): (r: seq<SaleItemRow>)
    ensures |r| == |lines|
    ensures forall i :: 0 <= i < |lines| ==> r[i].saleId == saleId && r[i].id == firstId + i
    ensures AsLines(r) == lines
  {
    var r := seq(|lines|, i requires 0 <= i < |lines| => SaleItemRow(firstId + i, saleId, lines[i].dishId, lines[i].quantity, lines[i].price));
    assert forall i :: 0 <= i < |lines| ==> AsLines(r)[i] == lines[i];
    r
  }

  /** `update({ total_amount }).eq("id", id)` on `sales`. */
  function UpdateSaleTotal(db: Db, id: nat, total: int): (r: Db)
    ensures r == db.(sales := r.sales)
    ensures |r.sales| == |db.sales|
    ensures forall i :: 0 <= i < |db.sales| ==>
              r.sales[i] == if db.sales[i].id == id then db.sales[i].(totalAmount := total) else db.sales[i]
  {
    db.(sales := SetTotal(db.sales, id, total))
  }

  function SetTotal(sales: seq<SaleRow>, id: nat, total: int): (r: seq<SaleRow>)
    ensures |r| == |sales|
    ensures forall i :: 0 <= i < |sales| ==>
              r[i] == if sales[i].id == id then sales[i].(totalAmount := total) else sales[i]
  {
    if |sales| == 0 then []
    else [if sales[0].id == id then sales[0].(totalAmount := total) else sales[0]] + SetTotal(sales[1..], id, total)
  }

  /** `delete().eq("sale_id", saleId)` on `sale_items`. */
  function DeleteItemsOf(db: Db, saleId: nat): (r: Db)
    ensures r == db.(saleItems := r.saleItems)
    ensures forall row :: row in r.saleItems <==> row in db.saleItems && row.saleId != saleId
    ensures ItemsOf(r.saleItems, saleId) == []
    ensures forall other :: other != saleId ==> ItemsOf(r.saleItems, other) == ItemsOf(db.saleItems, other)
  {
    var kept := KeepItemsNotOf(db.saleItems, saleId);
    db.(saleItems := kept)
  }

  function KeepItemsNotOf(items: seq<SaleItemRow>, saleId: nat): (r: seq<SaleItemRow>)
    ensures forall row :: row in r <==> row in items && row.saleId != saleId
    ensures ItemsOf(r, saleId) == []
    ensures forall other :: other != saleId ==> ItemsOf(r, other) == ItemsOf(items, other)
  {
    if |items| == 0 then []
    else
      var rest := KeepItemsNotOf(items[1..], saleId);
      assert items == [items[0]] + items[1..];
      if items[0].saleId == saleId then
        forall other | other != saleId ensures ItemsOf(rest, other) == ItemsOf(items, other) {
          ItemsOfCons(items[0], items[1..], other);
        }
        rest
      else
        var r := [items[0]] + rest;
        forall other ensures ItemsOf(r, other) == (if items[0].saleId == other then [items[0]] else []) + ItemsOf(rest, other) {
          ItemsOfCons(items[0], rest, other);
        }
        forall other ensures ItemsOf(items, other) == (if items[0].saleId == other then [items[0]] else []) + ItemsOf(items[1..], other) {
          ItemsOfCons(items[0], items[1..], other);
        }
        r
  }

  /** The items of a sale in a table with one more row in front. */
  lemma ItemsOfCons(x: SaleItemRow, s: seq<SaleItemRow>, saleId: nat)
    ensures ItemsOf([x] + s, saleId) == (if x.saleId == saleId then [x] else []) + ItemsOf(s, saleId)
  {
    assert ([x] + s)[1..] == s;
  }

  /**
   * `insert(saleItems)`: the new rows are appended with fresh ids. The store's
   * foreign keys from `sale_items` to `dishes` and `sales` are not checked.
   */
  function InsertItems(db: Db, saleId: nat, lines: seq<SaleLine>): (r: Db)
    ensures r.saleItems == db.saleItems + ItemRows(saleId, lines, db.nextId)
    ensures r.nextId == db.nextId + |lines|
    ensures r.categories == db.categories && r.dishes == db.dishes && r.sales == db.sales
  {
    db.(saleItems := db.saleItems + ItemRows(saleId, lines, db.nextId), nextId := db.nextId + |lines|)
  }

  /** `insert({ date, total_amount }).select().single()` on `sales`: the new header and its id. */
  function InsertSale(db: Db, date: Date, total: int): (r: (Db, nat))
    ensures r.1 == db.nextId && r.0.nextId == db.nextId + 1
    ensures r.0.sales == db.sales + [SaleRow(r.1, date, total)]
    ensures r.0.categories == db.categories && r.0.dishes == db.dishes && r.0.saleItems == db.saleItems
  {
    (db.(sales := db.sales + [SaleRow(db.nextId, date, total)], nextId := db.nextId + 1), db.nextId)
  }

  /** `insert({ name }).select().single()` on `categories`. */
  function InsertCategory(db: Db, name: string): (r: (Db, nat))
    ensures r.1 == db.nextId && r.0.nextId == db.nextId + 1
    ensures r.0.categories == db.categories + [CategoryRow(r.1, name)]
    ensures r.0.dishes == db.dishes && r.0.sales == db.sales && r.0.saleItems == db.saleItems
  {
    (db.(categories := db.categories + [CategoryRow(db.nextId, name)], nextId := db.nextId + 1), db.nextId)
  }

  /** `insert({ name, category_id, price }).select(...).single()` on `dishes`. */
  function InsertDish(db: Db, name: string, categoryId: int, price: nat): (r: (Db, DishRow))
    ensures r.1 == DishRow(db.nextId, name, categoryId, price) && r.0.nextId == db.nextId + 1
    ensures r.0.dishes == db.dishes + [r.1]
    ensures r.0.categories == db.categories && r.0.sales == db.sales && r.0.saleItems == db.saleItems
  {
    var row := DishRow(db.nextId, name, categoryId, price);
    (db.(dishes := db.dishes + [row], nextId := db.nextId + 1), row)
  }

  /**
   * `delete().eq("id", id)` on `dishes`. The model leaves sale headers and items
   * alone; the store's foreign key from `sale_items.dish_id` is not modelled.
   */
  function DeleteDish(db: Db, id: int): (r: Db)
    ensures r == db.(dishes := r.dishes)
    ensures forall row :: row in r.dishes <==> row in db.dishes && row.id != id
  {
    db.(dishes := KeepDishRowsNot(db.dishes, id))
  }

  function KeepDishRowsNot(rows: seq<DishRow>, id: int): (r: seq<DishRow>)
    ensures forall row :: row in r <==> row in rows && row.id != id
  {
    if |rows| == 0 then []
    else (if rows[0].id != id then [rows[0]] else []) + KeepDishRowsNot(rows[1..], id)
  }

  /** The name of the category with the given id, if one exists (the `categories(name)` join). */
  function CategoryName(cats: seq<CategoryRow>, id: int): (r: Option<string>)
    ensures r.Some? ==> exists c :: c in cats && c.id == id && c.name == r.value
    ensures r.None? ==> forall c :: c in cats ==> c.id != id
  {
    if |cats| == 0 then None
    else if cats[0].id == id then Some(cats[0].name)
    else CategoryName(cats[1..], id)
  }

  /** With one header per date, a query that does not return exactly one header finds none. */
  lemma NoHeaderOnDate(sales: seq<SaleRow>, date: Date)
    requires OneSalePerDate(sales)
    requires |SalesOn(sales, date)| != 1
    ensures forall j :: 0 <= j < |sales| ==> sales[j].date != date
  {
    forall j | 0 <= j < |sales|
      ensures sales[j].date != date
    {
      if sales[j].date == date {
        SalesOnUnique(sales, date, j);
      }
    }
  }

  lemma {:induction false} ItemsOfAll(items: seq<SaleItemRow>, saleId: nat)
    requires forall i :: 0 <= i < |items| ==> items[i].saleId == saleId
    ensures ItemsOf(items, saleId) == items
    decreases |items|
  {
    if |items| > 0 {
      ItemsOfAll(items[1..], saleId);
    }
  }

  lemma {:induction false} ItemsOfNone(items: seq<SaleItemRow>, saleId: nat)
    requires forall i :: 0 <= i < |items| ==> items[i].saleId != saleId
    ensures ItemsOf(items, saleId) == []
    decreases |items|
  {
    if |items| > 0 {
      ItemsOfNone(items[1..], saleId);
    }
  }

  /** Updating the total of a header dated `date` leaves the headers of every other date as they were. */
  lemma {:induction false} SetTotalOtherDates(sales: seq<SaleRow>, id: nat, total: int, date: Date, other: Date)
    requires forall j :: 0 <= j < |sales| && sales[j].id == id ==> sales[j].date == date
    requires other != date
    ensures SalesOn(SetTotal(sales, id, total), other) == SalesOn(sales, other)
    decreases |sales|
  {
    if |sales| > 0 {
      var r := SetTotal(sales, id, total);
      assert r[1..] == SetTotal(sales[1..], id, total);
      SetTotalOtherDates(sales[1..], id, total, date, other);
    }
  }

  lemma UpdateSaleTotalWellFormed(db: Db, id: nat, total: int)
    requires WellFormed(db)
    ensures WellFormed(UpdateSaleTotal(db, id, total))
  {
  }

  lemma DeleteItemsOfWellFormed(db: Db, saleId: nat)
    requires WellFormed(db)
    ensures WellFormed(DeleteItemsOf(db, saleId))
  {
    var r := DeleteItemsOf(db, saleId);
    forall i | 0 <= i < |r.saleItems| ensures r.saleItems[i].saleId < r.nextId {
      assert r.saleItems[i] in db.saleItems;
    }
  }

  lemma InsertItemsWellFormed(db: Db, saleId: nat, lines: seq<SaleLine>)
    requires WellFormed(db)
    requires saleId < db.nextId
    ensures WellFormed(InsertItems(db, saleId, lines))
  {
    var r := InsertItems(db, saleId, lines);
    forall i | 0 <= i < |r.saleItems| ensures r.saleItems[i].saleId < r.nextId {
      if i >= |db.saleItems| {
        assert r.saleItems[i] == ItemRows(saleId, lines, db.nextId)[i - |db.saleItems|];
      }
    }
  }

  lemma InsertSaleWellFormed(db: Db, date: Date, total: int)
    requires WellFormed(db)
    requires forall j :: 0 <= j < |db.sales| ==> db.sales[j].date != date
    ensures WellFormed(InsertSale(db, date, total).0)
    ensures InsertSale(db, date, total).1 < InsertSale(db, date, total).0.nextId
  {
  }
}
