/**
 * The flattened sales model of the dashboard: one `daily_sales` row per dish
 * per date, changed one unit at a time by the dish row's minus and plus
 * buttons, and the day's rows summed into the day total.
 */
module Dashboard {
  import opened Wrappers
  import opened Ledger

  type Date = string

  /** A `daily_sales` row. */
  datatype SalesRow = SalesRow(id: nat, dishId: DishId, quantity: int, totalAmount: int, saleDate: Date)

  /** A dish as the dashboard lists it; `price` is the integer `parseInt` gave at creation. */
  datatype FlatDish = FlatDish(id: DishId, name: string, price: int)

  /** The `daily_sales` table; `nextId` stands for the id the store gives the next inserted row. */
  datatype FlatDb = FlatDb(rows: seq<SalesRow>, nextId: nat)

  /** The table and the rows the dashboard holds for its date (`dailySales`). */
  datatype Board = Board(db: FlatDb, view: seq<SalesRow>)

  /** `.eq('sale_date', date)`: the rows of one date, in table order. */
  function RowsOn(rows: seq<SalesRow>, date: Date): (r: seq<SalesRow>)
    ensures forall row :: row in r <==> row in rows && row.saleDate == date
  {
    if |rows| == 0 then []
    else
      assert forall x :: x in rows <==> x == rows[0] || x in rows[1..];
      (if rows[0].saleDate == date then [rows[0]] else []) + RowsOn(rows[1..], date)
  }

  /** `dailySales.find(s => s.dish_id === dish.id)`. */
  function FindRow(view: seq<SalesRow>, dishId: DishId): (r: Option<SalesRow>)
    ensures r.None? <==> forall row :: row in view ==> row.dishId != dishId
    ensures r.Some? ==> r.value in view && r.value.dishId == dishId
    ensures r.Some? ==> exists i :: 0 <= i < |view| && view[i] == r.value && forall j :: 0 <= j < i ==> view[j].dishId != dishId
    ensures forall i :: 0 <= i < |view| && view[i].dishId == dishId && (forall j :: 0 <= j < i ==> view[j].dishId != dishId) ==>
              r == Some(view[i])
  {
    if |view| == 0 then None
    else if view[0].dishId == dishId then Some(view[0])
    else
      assert forall x :: x in view <==> x == view[0] || x in view[1..];
      var r := FindRow(view[1..], dishId);
      if r.Some? then
        var i :| 0 <= i < |view| - 1 && view[1..][i] == r.value && forall j :: 0 <= j < i ==> view[1..][j].dishId != dishId;
        assert view[i + 1] == r.value && forall j :: 0 <= j < i + 1 ==> view[j].dishId != dishId;
        r
      else r
  }

  /** `.update({ quantity, total_amount }).eq('id', id)`. */
  function SetRow(rows: seq<SalesRow>, id: nat, quantity: int, total: int): (r: seq<SalesRow>)
    ensures |r| == |rows|
    ensures forall i :: 0 <= i < |rows| ==>
              r[i] == if rows[i].id == id then rows[i].(quantity := quantity, totalAmount := total) else rows[i]
  {
    if |rows| == 0 then []
    else [if rows[0].id == id then rows[0].(quantity := quantity, totalAmount := total) else rows[0]]
         + SetRow(rows[1..], id, quantity, total)
  }

  /** `sale?.quantity || 0`: the quantity a dish row shows, 0 when the dish has no row. */
  function ShownQuantity(view: seq<SalesRow>, dishId: DishId): (r: int)
    ensures (forall row :: row in view ==> row.dishId != dishId) ==> r == 0
    ensures forall i :: 0 <= i < |view| && view[i].dishId == dishId && (forall j :: 0 <= j < i ==> view[j].dishId != dishId) ==>
              r == view[i].quantity
  {
    match FindRow(view, dishId)
    case None => 0
    case Some(row) => row.quantity
  }

  /** `sale?.total_amount || 0`: the amount a dish row shows, 0 when the dish has no row. */
  function ShownTotal(view: seq<SalesRow>, dishId: DishId): (r: int)
    ensures (forall row :: row in view ==> row.dishId != dishId) ==> r == 0
    ensures forall i :: 0 <= i < |view| && view[i].dishId == dishId && (forall j :: 0 <= j < i ==> view[j].dishId != dishId) ==>
              r == view[i].totalAmount
  {
    match FindRow(view, dishId)
    case None => 0
    case Some(row) => row.totalAmount
  }

  /**
   * `(existingSale?.quantity || 0) + (increment ? 1 : -1)`: one more or one
   * fewer than the dish's first row holds, starting from 0 when it has none.
   */
  function NextQuantity(view: seq<SalesRow>, dishId: DishId, increment: bool): (r: int)
    ensures (forall row :: row in view ==> row.dishId != dishId) ==> r == (if increment then 1 else -1)
    ensures forall i :: 0 <= i < |view| && view[i].dishId == dishId && (forall j :: 0 <= j < i ==> view[j].dishId != dishId) ==>
              r == view[i].quantity + (if increment then 1 else -1)
  {
    ShownQuantity(view, dishId) + (if increment then 1 else -1)
  }

  /**
   * `updateQuantity(dish, increment)`: a negative new quantity writes nothing.
   * Otherwise the dish's row is updated by id, or one row is inserted for the
   * date, with `total_amount = quantity * price`; after a successful write the
   * rows of the date are fetched again, after a failed one nothing changes.
   */
  function UpdateQuantity(b: Board, date: Date, dish: FlatDish, increment: bool, fails: bool): (r: Board)
    ensures NextQuantity(b.view, dish.id, increment) < 0 || fails ==> r == b
    ensures NextQuantity(b.view, dish.id, increment) >= 0 && !fails ==> InSync(r, date)
    ensures FindRow(b.view, dish.id).None? && NextQuantity(b.view, dish.id, increment) >= 0 && !fails ==>
              r.db == FlatDb(b.db.rows + [SalesRow(b.db.nextId, dish.id, 1, dish.price, date)], b.db.nextId + 1)
  {
    var existing := FindRow(b.view, dish.id);
    var quantity := NextQuantity(b.view, dish.id, increment);
    if quantity < 0 || fails then b
    else
      var total := quantity * dish.price;
      var rows :=
        if existing.Some? then SetRow(b.db.rows, existing.value.id, quantity, total)
        else b.db.rows + [SalesRow(b.db.nextId, dish.id, quantity, total, date)];
      var db := FlatDb(rows, if existing.Some? then b.db.nextId else b.db.nextId + 1);
      Board(db, RowsOn(db.rows, date))
  }

  /** Every row's id is issued, and ids are unique. */
  ghost predicate IdsIssued(db: FlatDb) {
    && (forall i :: 0 <= i < |db.rows| ==> db.rows[i].id < db.nextId)
    && (forall i, j :: 0 <= i < j < |db.rows| ==> db.rows[i].id != db.rows[j].id)
  }

  /** At most one row per dish per date. */
  ghost predicate OneRowPerDish(rows: seq<SalesRow>) {
    forall i, j :: 0 <= i < j < |rows| ==> rows[i].dishId != rows[j].dishId || rows[i].saleDate != rows[j].saleDate
  }

  /** No quantity below 0. */
  ghost predicate Nonnegative(rows: seq<SalesRow>) {
    forall i :: 0 <= i < |rows| ==> rows[i].quantity >= 0
  }

  /** The dashboard's view holds exactly the table's rows for its date. */
  ghost predicate InSync(b: Board, date: Date) {
    b.view == RowsOn(b.db.rows, date)
  }

  ghost predicate Sound(b: Board, date: Date) {
    IdsIssued(b.db) && OneRowPerDish(b.db.rows) && Nonnegative(b.db.rows) && InSync(b, date)
  }

  /** With one row per dish per date, the row the view finds for a dish is that dish's row. */
  lemma FindRowUnique(rows: seq<SalesRow>, date: Date, row: SalesRow)
    requires OneRowPerDish(rows)
    requires row in rows && row.saleDate == date
    ensures FindRow(RowsOn(rows, date), row.dishId) == Some(row)
  {
    var f := FindRow(RowsOn(rows, date), row.dishId);
    assert row in RowsOn(rows, date);
    var x := f.value;
    var i :| 0 <= i < |rows| && rows[i] == x;
    var j :| 0 <= j < |rows| && rows[j] == row;
    assert i == j;
  }

  /** Updating the row with id `e.id` changes `e` and no other row. */
  lemma SetRowFacts(rows: seq<SalesRow>, e: SalesRow, q: int, t: int)
    requires forall i, j :: 0 <= i < j < |rows| ==> rows[i].id != rows[j].id
    requires e in rows
    ensures var r := SetRow(rows, e.id, q, t);
            && e.(quantity := q, totalAmount := t) in r
            && (forall x :: x in rows && x.id != e.id ==> x in r)
            && (forall x :: x in r && x != e.(quantity := q, totalAmount := t) ==> x in rows && x.id != e.id)
            && (forall i :: 0 <= i < |r| ==> r[i].dishId == rows[i].dishId && r[i].saleDate == rows[i].saleDate && r[i].id == rows[i].id)
  {
    var r := SetRow(rows, e.id, q, t);
    var k :| 0 <= k < |rows| && rows[k] == e;
    assert r[k] == e.(quantity := q, totalAmount := t);
    forall x | x in rows && x.id != e.id ensures x in r {
      var i :| 0 <= i < |rows| && rows[i] == x;
      assert r[i] == x;
    }
    forall x | x in r && x != e.(quantity := q, totalAmount := t) ensures x in rows && x.id != e.id {
      var i :| 0 <= i < |r| && r[i] == x;
      if rows[i].id == e.id {
        assert false;
      }
    }
  }

  /** Updating one row in place keeps every table invariant and touches no other row. */
  lemma InPlaceRows(db: FlatDb, e: SalesRow, q: int, t: int)
    requires IdsIssued(db) && OneRowPerDish(db.rows) && Nonnegative(db.rows)
    requires e in db.rows && q >= 0
    ensures var r := SetRow(db.rows, e.id, q, t);
            && IdsIssued(FlatDb(r, db.nextId)) && OneRowPerDish(r) && Nonnegative(r)
            && e.(quantity := q, totalAmount := t) in r
            && |r| == |db.rows|
            && (forall i :: 0 <= i < |r| ==> r[i].dishId == db.rows[i].dishId && r[i].saleDate == db.rows[i].saleDate)
            && (forall i :: 0 <= i < |db.rows| && (db.rows[i].dishId != e.dishId || db.rows[i].saleDate != e.saleDate)
                  ==> r[i] == db.rows[i])
  {
    var rows := db.rows;
    SetRowFacts(rows, e, q, t);
    forall i | 0 <= i < |rows| && rows[i].id == e.id ensures rows[i] == e {
      var k :| 0 <= k < |rows| && rows[k] == e;
    }
  }

  /** Appending a row with a fresh id for a dish and date without a row keeps every table invariant. */
  lemma AppendedRows(db: FlatDb, n: SalesRow)
    requires IdsIssued(db) && OneRowPerDish(db.rows) && Nonnegative(db.rows)
    requires n.id == db.nextId && n.quantity >= 0
    requires forall i :: 0 <= i < |db.rows| ==> db.rows[i].dishId != n.dishId || db.rows[i].saleDate != n.saleDate
    ensures var r := db.rows + [n];
            IdsIssued(FlatDb(r, db.nextId + 1)) && OneRowPerDish(r) && Nonnegative(r)
  {
  }

  /** The rows the dashboard writes: an update in place of the dish's row, or one appended row. */
  lemma WrittenRows(b: Board, date: Date, dish: FlatDish, increment: bool)
    requires Sound(b, date)
    requires NextQuantity(b.view, dish.id, increment) >= 0
    ensures var q := NextQuantity(b.view, dish.id, increment);
            var r := UpdateQuantity(b, date, dish, increment, false);
            && IdsIssued(r.db) && OneRowPerDish(r.db.rows) && Nonnegative(r.db.rows)
            && SalesRow(if FindRow(b.view, dish.id).Some? then FindRow(b.view, dish.id).value.id else b.db.nextId,
                        dish.id, q, q * dish.price, date) in r.db.rows
            && |b.db.rows| <= |r.db.rows| <= |b.db.rows| + 1
            && (forall i :: 0 <= i < |b.db.rows| ==>
                  r.db.rows[i].dishId == b.db.rows[i].dishId && r.db.rows[i].saleDate == b.db.rows[i].saleDate)
            && (|r.db.rows| > |b.db.rows| ==> r.db.rows[|b.db.rows|].dishId == dish.id)
            && (forall i :: 0 <= i < |b.db.rows| && (b.db.rows[i].dishId != dish.id || b.db.rows[i].saleDate != date)
                  ==> r.db.rows[i] == b.db.rows[i])
  {
    var q := NextQuantity(b.view, dish.id, increment);
    var f := FindRow(b.view, dish.id);
    if f.Some? {
      InPlaceRows(b.db, f.value, q, q * dish.price);
    } else {
      var n := SalesRow(b.db.nextId, dish.id, q, q * dish.price, date);
      forall i | 0 <= i < |b.db.rows| ensures b.db.rows[i].dishId != dish.id || b.db.rows[i].saleDate != date {
        assert b.db.rows[i] in b.db.rows;
      }
      AppendedRows(b.db, n);
    }
  }

  /** The dashboard's invariants survive every click, whether the write succeeds, fails or is skipped. */
  lemma UpdateQuantityKeepsSound(b: Board, date: Date, dish: FlatDish, increment: bool, fails: bool)
    requires Sound(b, date)
    ensures Sound(UpdateQuantity(b, date, dish, increment, fails), date)
  {
    if NextQuantity(b.view, dish.id, increment) >= 0 && !fails {
      WrittenRows(b, date, dish, increment);
    }
  }

  /**
   * After a written click the dish's row shows the new quantity and, as its
   * amount, the new quantity times the dish's price.
   */
  lemma UpdateQuantityShows(b: Board, date: Date, dish: FlatDish, increment: bool)
    requires Sound(b, date)
    requires NextQuantity(b.view, dish.id, increment) >= 0
    ensures var q := NextQuantity(b.view, dish.id, increment);
            var r := UpdateQuantity(b, date, dish, increment, false);
            ShownQuantity(r.view, dish.id) == q && ShownTotal(r.view, dish.id) == q * dish.price
  {
    var q := NextQuantity(b.view, dish.id, increment);
    var r := UpdateQuantity(b, date, dish, increment, false);
    WrittenRows(b, date, dish, increment);
    var f := FindRow(b.view, dish.id);
    var row := SalesRow(if f.Some? then f.value.id else b.db.nextId, dish.id, q, q * dish.price, date);
    FindRowUnique(r.db.rows, date, row);
  }

  /** A click on one dish changes nothing another dish's row shows. */
  lemma UpdateQuantityOtherDishes(b: Board, date: Date, dish: FlatDish, increment: bool, fails: bool, other: DishId)
    requires Sound(b, date)
    requires other != dish.id
    ensures var r := UpdateQuantity(b, date, dish, increment, fails);
            ShownQuantity(r.view, other) == ShownQuantity(b.view, other)
            && ShownTotal(r.view, other) == ShownTotal(b.view, other)
  {
    var r := UpdateQuantity(b, date, dish, increment, fails);
    if NextQuantity(b.view, dish.id, increment) >= 0 && !fails {
      WrittenRows(b, date, dish, increment);
      var rows := b.db.rows;
      var g := FindRow(b.view, other);
      if g.Some? {
        var x := g.value;
        var i :| 0 <= i < |rows| && rows[i] == x;
        assert r.db.rows[i] == x;
        FindRowUnique(r.db.rows, date, x);
      } else {
        forall y | y in r.view ensures y.dishId != other {
          var i :| 0 <= i < |r.db.rows| && r.db.rows[i] == y;
          if i < |rows| {
            assert rows[i] in rows;
            assert rows[i].saleDate == date;
            assert rows[i] in b.view;
          }
        }
      }
    }
  }

  /** A dish's shown quantity is never negative. */
  lemma ShownNonnegative(b: Board, date: Date, id: DishId)
    requires Sound(b, date)
    ensures ShownQuantity(b.view, id) >= 0
  {
    if FindRow(b.view, id).Some? {
      var x := FindRow(b.view, id).value;
      var i :| 0 <= i < |b.db.rows| && b.db.rows[i] == x;
    }
  }

  /** A plus followed by a minus, both written, gives back the quantity the dish showed. */
  lemma PlusThenMinus(b: Board, date: Date, dish: FlatDish)
    requires Sound(b, date)
    ensures var b1 := UpdateQuantity(b, date, dish, true, false);
            var b2 := UpdateQuantity(b1, date, dish, false, false);
            ShownQuantity(b2.view, dish.id) == ShownQuantity(b.view, dish.id)
  {
    ShownNonnegative(b, date, dish.id);
    UpdateQuantityShows(b, date, dish, true);
    UpdateQuantityKeepsSound(b, date, dish, true, false);
    var b1 := UpdateQuantity(b, date, dish, true, false);
    UpdateQuantityShows(b1, date, dish, false);
  }

  /** `dailySales.reduce((sum, sale) => sum + sale.total_amount, 0)`, summed from the front. */
  function DayTotal(view: seq<SalesRow>): (r: int)
    ensures (forall i :: 0 <= i < |view| ==> view[i].totalAmount >= 0) ==>
              r >= 0 && forall i :: 0 <= i < |view| ==> view[i].totalAmount <= r
  {
    if |view| == 0 then 0
    else
      assert forall i :: 1 <= i < |view| ==> view[i] == view[1..][i - 1];
      view[0].totalAmount + DayTotal(view[1..])
  }

  /** The amounts the dish rows show, summed over the menu. */
  function ShownSum(menu: seq<FlatDish>, view: seq<SalesRow>): int {
    if |menu| == 0 then 0 else ShownTotal(view, menu[0].id) + ShownSum(menu[1..], view)
  }

  function MenuIds(menu: seq<FlatDish>): set<DishId> {
    set d | d in menu :: d.id
  }

  ghost predicate DistinctMenu(menu: seq<FlatDish>) {
    forall i, j :: 0 <= i < j < |menu| ==> menu[i].id != menu[j].id
  }

  /** Adding one row's amount to a single dish's shown amount adds it once to the menu's sum. */
  lemma {:induction false} ShownSumBump(menu: seq<FlatDish>, view: seq<SalesRow>, rest: seq<SalesRow>, row: SalesRow)
    requires DistinctMenu(menu)
    requires forall id :: ShownTotal(view, id) == ShownTotal(rest, id) + (if id == row.dishId then row.totalAmount else 0)
    ensures ShownSum(menu, view) == ShownSum(menu, rest) + (if row.dishId in MenuIds(menu) then row.totalAmount else 0)
  {
    if |menu| > 0 {
      DistinctMenuTail(menu);
      ShownSumBump(menu[1..], view, rest, row);
    }
  }

  /** Splitting the first dish off a menu with distinct ids. */
  lemma DistinctMenuTail(menu: seq<FlatDish>)
    requires DistinctMenu(menu) && |menu| > 0
    ensures DistinctMenu(menu[1..])
    ensures MenuIds(menu) == {menu[0].id} + MenuIds(menu[1..])
    ensures menu[0].id !in MenuIds(menu[1..])
  {
    var tail := menu[1..];
    forall i, j | 0 <= i < j < |tail| ensures tail[i].id != tail[j].id {
      assert tail[i] == menu[i + 1] && tail[j] == menu[j + 1];
    }
    assert forall d :: d in menu <==> d == menu[0] || d in tail;
    forall d | d in tail ensures d.id != menu[0].id {
      var j :| 0 <= j < |tail| && tail[j] == d;
      assert menu[j + 1] == d;
    }
  }

  /**
   * The day total equals the sum of the amounts the dish rows show, when the
   * day has at most one row per dish and every row's dish is on the menu.
   */
  lemma {:induction false} DayTotalMatchesShown(menu: seq<FlatDish>, view: seq<SalesRow>)
    requires DistinctMenu(menu)
    requires DistinctDishes(view)
    requires forall i :: 0 <= i < |view| ==> view[i].dishId in MenuIds(menu)
    ensures ShownSum(menu, view) == DayTotal(view)
  {
    if |view| == 0 {
      ShownSumEmpty(menu, view);
    } else {
      var row := view[0];
      var rest := view[1..];
      forall id ensures ShownTotal(view, id) == ShownTotal(rest, id) + (if id == row.dishId then row.totalAmount else 0) {
        ShownTotalCons(view, id);
      }
      ShownSumBump(menu, view, rest, row);
      assert row.dishId in MenuIds(menu);
      assert DistinctDishes(rest) && forall i :: 0 <= i < |rest| ==> rest[i].dishId in MenuIds(menu) by {
        assert forall i :: 0 <= i < |rest| ==> rest[i] == view[i + 1];
      }
      DayTotalMatchesShown(menu, rest);
    }
  }

  /** Without a repeated dish, the first row adds its amount to its own dish only. */
  lemma ShownTotalCons(view: seq<SalesRow>, id: DishId)
    requires DistinctDishes(view) && |view| > 0
    ensures ShownTotal(view, id) == ShownTotal(view[1..], id) + (if id == view[0].dishId then view[0].totalAmount else 0)
  {
    var rest := view[1..];
    if id == view[0].dishId {
      assert FindRow(rest, id).None? by {
        forall y | y in rest ensures y.dishId != id {
          var j :| 0 <= j < |rest| && rest[j] == y;
          assert view[j + 1] == y;
        }
      }
    }
  }

  /** With no rows, every dish row shows 0. */
  lemma {:induction false} ShownSumEmpty(menu: seq<FlatDish>, view: seq<SalesRow>)
    requires |view| == 0
    ensures ShownSum(menu, view) == 0
  {
    if |menu| > 0 {
      ShownSumEmpty(menu[1..], view);
    }
  }

  /** No dish appears on two of the rows. */
  ghost predicate DistinctDishes(v: seq<SalesRow>) {
    forall i, j :: 0 <= i < j < |v| ==> v[i].dishId != v[j].dishId
  }

  lemma ConsDistinct(x: SalesRow, w: seq<SalesRow>)
    requires DistinctDishes(w)
    requires forall k :: 0 <= k < |w| ==> w[k].dishId != x.dishId
    ensures DistinctDishes([x] + w)
  {
    var v := [x] + w;
    forall i, j | 0 <= i < j < |v| ensures v[i].dishId != v[j].dishId {
      assert v[j] == w[j - 1];
      if i > 0 {
        assert v[i] == w[i - 1];
      }
    }
  }

  lemma OneRowPerDishTail(rows: seq<SalesRow>)
    requires OneRowPerDish(rows) && |rows| > 0
    ensures OneRowPerDish(rows[1..])
  {
    var tail := rows[1..];
    forall i, j | 0 <= i < j < |tail|
      ensures tail[i].dishId != tail[j].dishId || tail[i].saleDate != tail[j].saleDate
    {
      assert tail[i] == rows[i + 1] && tail[j] == rows[j + 1];
    }
  }

  /** One row per dish per date means the rows of one date name each dish at most once. */
  lemma {:induction false} RowsOnDistinctDishes(rows: seq<SalesRow>, date: Date)
    requires OneRowPerDish(rows)
    ensures DistinctDishes(RowsOn(rows, date))
  {
    if |rows| > 0 {
      var tail := rows[1..];
      OneRowPerDishTail(rows);
      RowsOnDistinctDishes(tail, date);
      var w := RowsOn(tail, date);
      if rows[0].saleDate == date {
        forall k | 0 <= k < |w| ensures w[k].dishId != rows[0].dishId {
          assert w[k] in w;
          var m :| 0 <= m < |tail| && tail[m] == w[k];
          assert rows[m + 1] == w[k];
        }
        ConsDistinct(rows[0], w);
        assert RowsOn(rows, date) == [rows[0]] + w;
      } else {
        assert RowsOn(rows, date) == w;
      }
    }
  }

  /**
   * On a board whose invariants hold, the total shown at the bottom equals the
   * sum of the amounts shown in the dish rows, provided every row's dish is listed.
   */
  lemma SoundDayTotal(menu: seq<FlatDish>, b: Board, date: Date)
    requires Sound(b, date)
    requires DistinctMenu(menu)
    requires forall i :: 0 <= i < |b.view| ==> b.view[i].dishId in MenuIds(menu)
    ensures ShownSum(menu, b.view) == DayTotal(b.view)
  {
    RowsOnDistinctDishes(b.db.rows, date);
    assert b.view == RowsOn(b.db.rows, date);
    DayTotalMatchesShown(menu, b.view);
  }
}
