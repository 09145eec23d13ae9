/**
 * The end-of-day summary of one day's sale: the stored total as headline,
 * then the sale's items grouped by the current menu's category labels, each
 * group with its running total. Amounts use the price stored on each item.
 */
module SalesSummary {
  import opened Wrappers
  import opened Ledger
  import opened Menu
  import opened SaleLines
  import opened Store
  import opened SaveSales

  /** One listed item: the dish's current name, the sold quantity and the amount at the stored price. */
  datatype Row = Row(name: string, quantity: nat, amount: nat)

  /** One category's block: its running total and its rows in item order. */
  datatype Block = Block(total: nat, rows: seq<Row>)

  /** `salesByCategory`: keys in first-insertion order, and their blocks. */
  datatype Summary = Summary(order: seq<string>, blocks: map<string, Block>)

  /** What the component renders once loading is over. */
  datatype View = NoData | Shown(headline: int, summary: Summary)

  function RowsTotal(rows: seq<Row>): nat {
    if |rows| == 0 then 0 else rows[0].amount + RowsTotal(rows[1..])
  }

  lemma {:induction false} RowsTotalAppend(a: seq<Row>, b: seq<Row>)
    ensures RowsTotal(a + b) == RowsTotal(a) + RowsTotal(b)
  {
    if |a| == 0 {
      assert a + b == b;
    } else {
      assert (a + b)[1..] == a[1..] + b;
      RowsTotalAppend(a[1..], b);
    }
  }

  /** The key order lists each key exactly once, and each block's total is the sum of its rows. */
  ghost predicate Consistent(s: Summary) {
    && (forall n :: n in s.order <==> n in s.blocks)
    && (forall i, j :: 0 <= i < j < |s.order| ==> s.order[i] != s.order[j])
    && (forall n :: n in s.blocks ==> s.blocks[n].total == RowsTotal(s.blocks[n].rows))
  }

  /**
   * One `forEach` step, given the menu's dish for the item: an item whose dish
   * was found adds a row, and its amount, to the block of the dish's label,
   * creating the block if absent; an item whose dish was not found is skipped.
   */
  function AddItem(s: Summary, found: Option<Dish>, item: SaleLine): (r: Summary)
    ensures found.None? ==> r == s
    ensures found.Some? ==>
              var n := Label(found.value);
              var old_ := if n in s.blocks then s.blocks[n] else Block(0, []);
              && r.blocks == s.blocks[n := Block(old_.total + Amount(item), old_.rows + [Row(found.value.name, item.quantity, Amount(item))])]
              && r.order == if n in s.blocks then s.order else s.order + [n]
  {
    match found
    case None => s
    case Some(d) =>
      var n := Label(d);
      var b := if n in s.blocks then s.blocks[n] else Block(0, []);
      var b' := Block(b.total + Amount(item), b.rows + [Row(d.name, item.quantity, Amount(item))]);
      Summary(if n in s.blocks then s.order else s.order + [n], s.blocks[n := b'])
  }

  /** The label of the item's dish on the menu, absent when the dish is not on it. */
  function ItemLabel(menu: seq<Dish>, item: SaleLine): Option<string> {
    match FindDish(menu, item.dishId)
    case Some(d) => Some(Label(d))
    case None => None
  }

  /** The labels of the items whose dish is on the menu, one per such item, in item order. */
  function FoundLabels(menu: seq<Dish>, items: seq<SaleLine>): (r: seq<string>)
    ensures forall n :: n in r <==> exists i :: 0 <= i < |items| && ItemLabel(menu, items[i]) == Some(n)
  {
    if |items| == 0 then []
    else
      var init := items[..|items| - 1];
      var last := items[|items| - 1];
      assert items == init + [last];
      FoundLabelsStep(menu, init, last, FoundLabels(menu, init));
      FoundLabels(menu, init) + (match ItemLabel(menu, last) case Some(n) => [n] case None => [])
  }

  /** One step of `FoundLabels`: the last item's label joins those of the items before it. */
  lemma FoundLabelsStep(menu: seq<Dish>, init: seq<SaleLine>, last: SaleLine, prev: seq<string>)
    requires forall n :: n in prev <==> exists i :: 0 <= i < |init| && ItemLabel(menu, init[i]) == Some(n)
    ensures var items := init + [last];
            var r := prev + (match ItemLabel(menu, last) case Some(n) => [n] case None => []);
            forall n :: n in r <==> exists i :: 0 <= i < |items| && ItemLabel(menu, items[i]) == Some(n)
  {
    var items := init + [last];
    var r := prev + (match ItemLabel(menu, last) case Some(n) => [n] case None => []);
    forall n | (exists i :: 0 <= i < |items| && ItemLabel(menu, items[i]) == Some(n))
      ensures n in r
    {
      var i :| 0 <= i < |items| && ItemLabel(menu, items[i]) == Some(n);
      if i < |init| { assert init[i] == items[i]; }
    }
    forall n | n in r
      ensures exists i :: 0 <= i < |items| && ItemLabel(menu, items[i]) == Some(n)
    {
      if n in prev {
        var i :| 0 <= i < |init| && ItemLabel(menu, init[i]) == Some(n);
        assert items[i] == init[i];
      } else {
        assert items[|init|] == last;
      }
    }
  }

  /**
   * The rows the summary lists under label `n`: one `{name, quantity, amount}`
   * per item whose dish is on the menu with that label, in item order.
   */
  function RowsFor(menu: seq<Dish>, items: seq<SaleLine>, n: string): (r: seq<Row>)
    ensures r == [] <==> forall i :: 0 <= i < |items| ==> ItemLabel(menu, items[i]) != Some(n)
  {
    if |items| == 0 then []
    else
      var init := items[..|items| - 1];
      var item := items[|items| - 1];
      var prev := RowsFor(menu, init, n);
      assert forall i :: 0 <= i < |init| ==> init[i] == items[i];
      var here := match FindDish(menu, item.dishId)
                  case Some(d) => if Label(d) == n then [Row(d.name, item.quantity, Amount(item))] else []
                  case None => [];
      prev + here
  }

  /**
   * `salesByCategory` after the `forEach` over the sale's items. Each label of
   * an item's dish gets exactly one block, listed in the order the labels first
   * occur among the items; a block holds one row per item with that label, in
   * item order, and its total is the sum of its rows. Items whose dish is not
   * on the menu appear nowhere.
   */
  function Summarize(menu: seq<Dish>, items: seq<SaleLine>): (r: Summary)
    ensures Consistent(r)
    ensures r.order == FirstSeen(FoundLabels(menu, items))
    ensures forall n :: n in r.blocks <==> n in FoundLabels(menu, items)
    ensures forall n :: n in r.blocks ==> r.blocks[n].rows == RowsFor(menu, items, n)
  {
    if |items| == 0 then Summary([], map[])
    else
      var s := Summarize(menu, items[..|items| - 1]);
      var item := items[|items| - 1];
      AddItemConsistent(s, FindDish(menu, item.dishId), item);
      SummarizeStep(menu, items, s);
      AddItem(s, FindDish(menu, item.dishId), item)
  }

  /** One `forEach` step keeps the key order and every block's rows in step with the items read so far. */
  lemma SummarizeStep(menu: seq<Dish>, items: seq<SaleLine>, s: Summary)
    requires |items| > 0
    requires Consistent(s)
    requires s.order == FirstSeen(FoundLabels(menu, items[..|items| - 1]))
    requires forall n :: n in s.blocks ==> s.blocks[n].rows == RowsFor(menu, items[..|items| - 1], n)
    ensures var r := AddItem(s, FindDish(menu, items[|items| - 1].dishId), items[|items| - 1]);
            && r.order == FirstSeen(FoundLabels(menu, items))
            && forall n :: n in r.blocks ==> r.blocks[n].rows == RowsFor(menu, items, n)
  {
    var item := items[|items| - 1];
    var r := AddItem(s, FindDish(menu, item.dishId), item);
    SummarizeOrderStep(menu, items, s);
    forall m | m in r.blocks ensures r.blocks[m].rows == RowsFor(menu, items, m) {
      SummarizeRowsAt(menu, items, s, m);
    }
  }

  /** One `forEach` step appends the item's label to the key order exactly when it is that label's first occurrence. */
  lemma SummarizeOrderStep(menu: seq<Dish>, items: seq<SaleLine>, s: Summary)
    requires |items| > 0
    requires forall n :: n in s.order <==> n in s.blocks
    requires s.order == FirstSeen(FoundLabels(menu, items[..|items| - 1]))
    ensures AddItem(s, FindDish(menu, items[|items| - 1].dishId), items[|items| - 1]).order
            == FirstSeen(FoundLabels(menu, items))
  {
    var init := items[..|items| - 1];
    var item := items[|items| - 1];
    var found := FindDish(menu, item.dishId);
    var prev := FoundLabels(menu, init);
    if found.Some? {
      var n := Label(found.value);
      assert ItemLabel(menu, item) == Some(n);
      assert FoundLabels(menu, items) == prev + [n];
      FirstSeenSnoc(prev, n);
    } else {
      assert ItemLabel(menu, item) == None;
      assert FoundLabels(menu, items) == prev;
    }
  }

  /** One `forEach` step leaves the block of label `m` holding the rows of `m` among the items read so far. */
  lemma SummarizeRowsAt(menu: seq<Dish>, items: seq<SaleLine>, s: Summary, m: string)
    requires |items| > 0
    requires forall n :: n in s.blocks <==> n in FoundLabels(menu, items[..|items| - 1])
    requires forall n :: n in s.blocks ==> s.blocks[n].rows == RowsFor(menu, items[..|items| - 1], n)
    ensures var r := AddItem(s, FindDish(menu, items[|items| - 1].dishId), items[|items| - 1]);
            m in r.blocks ==> r.blocks[m].rows == RowsFor(menu, items, m)
  {
    var init := items[..|items| - 1];
    var found := FindDish(menu, items[|items| - 1].dishId);
    if found.Some? && m !in s.blocks {
      assert m !in FoundLabels(menu, init);
      assert RowsFor(menu, init, m) == [];
    }
  }

  lemma AddItemConsistent(s: Summary, found: Option<Dish>, item: SaleLine)
    requires Consistent(s)
    ensures Consistent(AddItem(s, found, item))
  {
    var r := AddItem(s, found, item);
    if found.Some? {
      var d := found.value;
      var n := Label(d);
      var b := if n in s.blocks then s.blocks[n] else Block(0, []);
      RowsTotalAppend(b.rows, [Row(d.name, item.quantity, Amount(item))]);
      if n !in s.blocks {
        assert r.order[|s.order|] == n;
      }
    }
  }

  /** The rendered view: nothing when the lookup gave no sale, else the headline and the groups. */
  function Render(menu: seq<Dish>, sale: Option<DailySale>): (r: View)
    ensures r.NoData? <==> sale.None?
    ensures r.Shown? ==> r.headline == sale.value.totalSales && Consistent(r.summary)
  {
    match sale
    case None => NoData
    case Some(v) => Shown(v.totalSales, Summarize(menu, v.dishes))
  }

  /**
   * The summary of a day as the end-of-day page loads it: "No Sales Data" exactly
   * when the day has no single header or a query failed; otherwise the headline
   * is the total stored on the day's header.
   */
  function LoadSummary(menu: seq<Dish>, db: Db, date: Date, fault: Option<Step>): (r: View)
    ensures r.NoData? <==> !LookupSale(db, date, fault).Found?
    ensures r.Shown? ==> r.headline == LookupSale(db, date, fault).sale.totalSales
  {
    Render(menu, FetchSalesByDate(db, date, fault))
  }

  /** The sum of the blocks' totals, in key order. */
  function BlocksTotal(order: seq<string>, blocks: map<string, Block>): nat
    requires forall n :: n in order ==> n in blocks
  {
    if |order| == 0 then 0 else blocks[order[0]].total + BlocksTotal(order[1..], blocks)
  }

  /** The amounts of the items whose dish is on the menu. */
  function ListedTotal(menu: seq<Dish>, items: seq<SaleLine>): nat {
    if |items| == 0 then 0
    else ListedTotal(menu, items[..|items| - 1])
         + (if items[|items| - 1].dishId in Ids(menu) then Amount(items[|items| - 1]) else 0)
  }

  /** The sum over an order only looks at the totals of the keys in the order. */
  lemma {:induction false} BlocksTotalFrame(order: seq<string>, b1: map<string, Block>, b2: map<string, Block>)
    requires forall n :: n in order ==> n in b1 && n in b2 && b1[n].total == b2[n].total
    ensures BlocksTotal(order, b1) == BlocksTotal(order, b2)
  {
    if |order| > 0 {
      assert forall n :: n in order[1..] ==> n in order;
      BlocksTotalFrame(order[1..], b1, b2);
    }
  }

  lemma {:induction false} BlocksTotalSnoc(order: seq<string>, blocks: map<string, Block>, n: string)
    requires forall m :: m in order ==> m in blocks
    requires n in blocks
    ensures BlocksTotal(order + [n], blocks) == BlocksTotal(order, blocks) + blocks[n].total
  {
    if |order| == 0 {
      assert order + [n] == [n];
    } else {
      assert (order + [n])[1..] == order[1..] + [n];
      assert forall m :: m in order[1..] ==> m in order;
      BlocksTotalSnoc(order[1..], blocks, n);
    }
  }

  /** Raising one listed key's total by `delta` raises the sum by `delta`. */
  lemma {:induction false} BlocksTotalBump(order: seq<string>, b1: map<string, Block>, b2: map<string, Block>, n: string, delta: nat)
    requires forall i, j :: 0 <= i < j < |order| ==> order[i] != order[j]
    requires forall m :: m in order ==> m in b1 && m in b2
    requires n in order
    requires b2[n].total == b1[n].total + delta
    requires forall m :: m in order && m != n ==> b2[m].total == b1[m].total
    ensures BlocksTotal(order, b2) == BlocksTotal(order, b1) + delta
  {
    var rest := order[1..];
    assert forall m :: m in rest ==> m in order;
    if order[0] == n {
      assert n !in rest by {
        forall i | 0 <= i < |rest| ensures rest[i] != n {
          assert rest[i] == order[i + 1];
        }
      }
      BlocksTotalFrame(rest, b1, b2);
    } else {
      assert n in rest;
      BlocksTotalBump(rest, b1, b2, n, delta);
    }
  }

  /** One step of the `forEach` adds the item's amount to the sum of the totals, when its dish is listed. */
  lemma AddItemTotal(s: Summary, found: Option<Dish>, item: SaleLine)
    requires Consistent(s)
    ensures var r := AddItem(s, found, item);
            Consistent(r) &&
            BlocksTotal(r.order, r.blocks)
            == BlocksTotal(s.order, s.blocks) + (if found.Some? then Amount(item) else 0)
  {
    AddItemConsistent(s, found, item);
    var r := AddItem(s, found, item);
    if found.Some? {
      var n := Label(found.value);
      if n in s.blocks {
        BlocksTotalBump(s.order, s.blocks, r.blocks, n, Amount(item));
      } else {
        BlocksTotalFrame(s.order, s.blocks, r.blocks);
        BlocksTotalSnoc(s.order, r.blocks, n);
      }
    }
  }

  /**
   * The category totals add up to the amounts of the items whose dish is still
   * on the menu: every such item is counted in exactly one category.
   */
  lemma {:induction false} SummaryTotalsListed(menu: seq<Dish>, items: seq<SaleLine>)
    ensures var s := Summarize(menu, items);
            BlocksTotal(s.order, s.blocks) == ListedTotal(menu, items)
  {
    if |items| > 0 {
      var init := items[..|items| - 1];
      SummaryTotalsListed(menu, init);
      var item := items[|items| - 1];
      AddItemTotal(Summarize(menu, init), FindDish(menu, item.dishId), item);
    }
  }

  /** When every item's dish is on the menu, the listed amounts are all of the sale's amounts. */
  lemma {:induction false} ListedTotalAllOnMenu(menu: seq<Dish>, items: seq<SaleLine>)
    requires forall i :: 0 <= i < |items| ==> items[i].dishId in Ids(menu)
    ensures ListedTotal(menu, items) == LinesTotal(items)
  {
    if |items| > 0 {
      var init := items[..|items| - 1];
      ListedTotalAllOnMenu(menu, init);
      assert items == init + [items[|items| - 1]];
      LinesTotalAppend(init, [items[|items| - 1]]);
    }
  }

  /**
   * For a day whose header total is the sum of its items, and whose dishes are
   * all still on the menu, the category totals add up to the headline.
   */
  lemma SummaryMatchesHeadline(menu: seq<Dish>, sale: DailySale)
    requires sale.totalSales == LinesTotal(sale.dishes)
    requires forall i :: 0 <= i < |sale.dishes| ==> sale.dishes[i].dishId in Ids(menu)
    ensures var v := Render(menu, Some(sale));
            v.Shown? && BlocksTotal(v.summary.order, v.summary.blocks) == v.headline
  {
    SummaryTotalsListed(menu, sale.dishes);
    ListedTotalAllOnMenu(menu, sale.dishes);
  }

  /** One `forEach` step reads only the dish's name and label from the menu. */
  lemma AddItemReprice(s: Summary, f1: Option<Dish>, f2: Option<Dish>, item: SaleLine)
    requires f1.Some? <==> f2.Some?
    requires f1.Some? ==> f1.value.(price := 0) == f2.value.(price := 0)
    ensures AddItem(s, f1, item) == AddItem(s, f2, item)
  {
    if f1.Some? {
      var d1 := f1.value;
      var d2 := f2.value;
      assert d1.name == d1.(price := 0).name == d2.(price := 0).name == d2.name;
      assert d1.categoryName == d1.(price := 0).categoryName == d2.(price := 0).categoryName == d2.categoryName;
    }
  }

  /**
   * Amounts come from the price stored on each item, not from the menu: two menus
   * that differ only in prices give the same summary.
   */
  lemma {:induction false} SummaryIgnoresMenuPrices(m1: seq<Dish>, m2: seq<Dish>, items: seq<SaleLine>)
    requires SameButPrices(m1, m2)
    ensures Summarize(m1, items) == Summarize(m2, items)
  {
    if |items| > 0 {
      var init := items[..|items| - 1];
      SummaryIgnoresMenuPrices(m1, m2, init);
      var item := items[|items| - 1];
      FindDishReprice(m1, m2, item.dishId);
      AddItemReprice(Summarize(m1, init), FindDish(m1, item.dishId), FindDish(m2, item.dishId), item);
    }
  }
}
