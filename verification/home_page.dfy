/**
 * The daily sales page of the normalised shop: the menu grouped by category
 * label, the running total shown under it, and the rule that enables the
 * "Save & End Day" button.
 */
module HomePage {
  import opened Wrappers
  import opened Ledger
  import opened Keys
  import opened Menu
  import opened SaleLines

  /**
   * The `Record<string, Dish[]>` the page builds: `order` is the object's key
   * order (keys in first-insertion order) and `groups` its contents.
   */
  datatype Grouping = Grouping(order: seq<string>, groups: map<string, seq<Dish>>)

  /** The labels that occur on a menu. */
  function Labels(menu: seq<Dish>): set<string> {
    set d | d in menu :: Label(d)
  }

  /** Each dish's label, in menu order. */
  function LabelSeq(menu: seq<Dish>): (r: seq<string>)
    ensures |r| == |menu|
    ensures forall i :: 0 <= i < |menu| ==> r[i] == Label(menu[i])
  {
    if |menu| == 0 then [] else LabelSeq(menu[..|menu| - 1]) + [Label(menu[|menu| - 1])]
  }

  /** The dishes of `menu` labelled `name`, in menu order. */
  function Members(menu: seq<Dish>, name: string): (r: seq<Dish>)
    ensures forall d :: d in r <==> d in menu && Label(d) == name
    ensures (forall d :: d in menu ==> Label(d) != name) ==> r == []
  {
    if |menu| == 0 then []
    else
      var init := menu[..|menu| - 1];
      var last := menu[|menu| - 1];
      assert forall d :: d in menu <==> d in init || d == last;
      Members(init, name) + (if Label(last) == name then [last] else [])
  }

  /** One step of the reduce: push the dish onto its label's list, creating the list if absent. */
  function AddToGroup(g: Grouping, d: Dish): (r: Grouping)
    ensures r.groups.Keys == g.groups.Keys + {Label(d)}
    ensures Label(d) in g.groups ==> r.order == g.order && r.groups[Label(d)] == g.groups[Label(d)] + [d]
    ensures Label(d) !in g.groups ==> r.order == g.order + [Label(d)] && r.groups[Label(d)] == [d]
    ensures forall n :: n in g.groups && n != Label(d) ==> r.groups[n] == g.groups[n]
  {
    var n := Label(d);
    if n in g.groups then Grouping(g.order, g.groups[n := g.groups[n] + [d]])
    else Grouping(g.order + [n], g.groups[n := [d]])
  }

  /** The key order lists each key of the object exactly once. */
  ghost predicate Coherent(g: Grouping) {
    && (forall n :: n in g.order <==> n in g.groups)
    && (forall i, j :: 0 <= i < j < |g.order| ==> g.order[i] != g.order[j])
  }

  /**
   * `dishesByCategory`: the dishes reduced left to right into one list per label.
   * Every label on the menu gets exactly one group, and the groups are listed
   * in the order their labels first occur on the menu; each group holds exactly
   * the dishes with that label, in menu order; and the page shows no groups
   * exactly when the menu is empty.
   */
  function GroupByCategory(menu: seq<Dish>): (r: Grouping)
    ensures Coherent(r)
    ensures r.order == FirstSeen(LabelSeq(menu))
    ensures forall n :: n in r.groups <==> n in Labels(menu)
    ensures forall n :: n in r.groups ==> r.groups[n] == Members(menu, n)
    ensures |r.order| == 0 <==> |menu| == 0
  {
    if |menu| == 0 then Grouping([], map[])
    else
      var init := menu[..|menu| - 1];
      var last := menu[|menu| - 1];
      assert menu == init + [last];
      var g := GroupByCategory(init);
      GroupStep(init, last, g);
      GroupOrderStep(init, last, g);
      AddToGroup(g, last)
  }

  /** One reduce step appends the dish's label to the key order exactly when it is the label's first occurrence. */
  lemma GroupOrderStep(init: seq<Dish>, last: Dish, g: Grouping)
    requires Coherent(g)
    requires g.order == FirstSeen(LabelSeq(init))
    ensures AddToGroup(g, last).order == FirstSeen(LabelSeq(init + [last]))
  {
    var menu := init + [last];
    var ls := LabelSeq(menu);
    assert menu[..|menu| - 1] == init;
    assert ls[..|ls| - 1] == LabelSeq(init);
    assert Label(last) in g.groups <==> Label(last) in g.order;
  }

  /** Appending a dish to the menu adds its label to the menu's labels. */
  lemma LabelsSnoc(init: seq<Dish>, last: Dish)
    ensures Labels(init + [last]) == Labels(init) + {Label(last)}
  {
    var menu := init + [last];
    assert forall d :: d in menu <==> d in init || d == last;
    forall n | n in Labels(menu) ensures n in Labels(init) + {Label(last)} {
      var d :| d in menu && Label(d) == n;
    }
    forall n | n in Labels(init) + {Label(last)} ensures n in Labels(menu) {
      if n != Label(last) {
        var d :| d in init && Label(d) == n;
        assert d in menu;
      } else {
        assert last in menu;
      }
    }
  }

  /** Appending a dish to the menu appends it to its own label's members only. */
  lemma MembersSnoc(init: seq<Dish>, last: Dish, n: string)
    ensures Members(init + [last], n) == Members(init, n) + (if Label(last) == n then [last] else [])
  {
    var menu := init + [last];
    assert menu[..|menu| - 1] == init;
  }

  /** One reduce step keeps the grouping in step with the menu read so far. */
  lemma GroupStep(init: seq<Dish>, last: Dish, g: Grouping)
    requires Coherent(g)
    requires forall n :: n in g.groups <==> n in Labels(init)
    requires forall n :: n in g.groups ==> g.groups[n] == Members(init, n)
    ensures var r := AddToGroup(g, last);
            && Coherent(r)
            && (forall n :: n in r.groups <==> n in Labels(init + [last]))
            && (forall n :: n in r.groups ==> r.groups[n] == Members(init + [last], n))
            && |r.order| > 0
  {
    var r := AddToGroup(g, last);
    LabelsSnoc(init, last);
    forall n | n in r.groups ensures r.groups[n] == Members(init + [last], n) {
      GroupStepAt(init, last, g, n);
    }
    AddToGroupCoherent(g, last);
  }

  /** One reduce step keeps the key order listing each key exactly once, and makes it non-empty. */
  lemma AddToGroupCoherent(g: Grouping, d: Dish)
    requires Coherent(g)
    ensures Coherent(AddToGroup(g, d)) && |AddToGroup(g, d).order| > 0
  {
    var r := AddToGroup(g, d);
    if Label(d) !in g.groups {
      assert r.order[|g.order|] == Label(d);
      forall i, j | 0 <= i < j < |r.order| ensures r.order[i] != r.order[j] {
        if j == |g.order| {
          assert r.order[i] == g.order[i];
          assert g.order[i] in g.order;
        } else {
          assert r.order[i] == g.order[i] && r.order[j] == g.order[j];
        }
      }
    } else {
      assert Label(d) in g.order;
    }
  }

  /** One reduce step leaves each label's group equal to that label's members of the longer menu. */
  lemma GroupStepAt(init: seq<Dish>, last: Dish, g: Grouping, n: string)
    requires forall m :: m in g.groups <==> m in Labels(init)
    requires forall m :: m in g.groups ==> g.groups[m] == Members(init, m)
    requires n in AddToGroup(g, last).groups
    ensures AddToGroup(g, last).groups[n] == Members(init + [last], n)
  {
    MembersSnoc(init, last, n);
    if n !in g.groups {
      assert n == Label(last);
      assert n !in Labels(init);
      assert forall d :: d in init ==> Label(d) != n;
    }
  }

  /** A dish on the menu is listed in its own label's group and in no other. */
  lemma DishInOwnGroupOnly(menu: seq<Dish>, d: Dish)
    requires d in menu
    ensures var g := GroupByCategory(menu);
            && Label(d) in g.groups
            && forall n :: n in g.groups ==> (d in g.groups[n] <==> n == Label(d))
  {
    var g := GroupByCategory(menu);
    assert Label(d) in Labels(menu);
  }

  /**
   * `totalSales`: `price * (quantitySold[id] || 0)` summed over the menu.
   * Integer addition is associative, so summing from the front gives the fold's value.
   */
  function DisplayedTotal(menu: seq<Dish>, l: Ledger): (r: nat)
    ensures forall i :: 0 <= i < |menu| ==> menu[i].price * Qty(l, menu[i].id) <= r
  {
    if |menu| == 0 then 0
    else
      assert forall i :: 1 <= i < |menu| ==> menu[i] == menu[1..][i - 1];
      menu[0].price * Qty(l, menu[0].id) + DisplayedTotal(menu[1..], l)
  }

  /**
   * The "Save & End Day" button is disabled exactly when the displayed total
   * is 0, so it is enabled exactly when some priced dish has a positive count.
   */
  function SaveEnabled(menu: seq<Dish>, l: Ledger): (r: bool)
    ensures r <==> exists i :: 0 <= i < |menu| && menu[i].price > 0 && Qty(l, menu[i].id) > 0
  {
    DisplayedTotalPositiveIff(menu, l);
    DisplayedTotal(menu, l) != 0
  }

  /** The displayed total is non-zero exactly when some priced dish on the menu has a positive count. */
  lemma {:induction false} DisplayedTotalPositiveIff(menu: seq<Dish>, l: Ledger)
    ensures DisplayedTotal(menu, l) != 0 <==> exists i :: 0 <= i < |menu| && menu[i].price > 0 && Qty(l, menu[i].id) > 0
  {
    if exists i :: 0 <= i < |menu| && menu[i].price > 0 && Qty(l, menu[i].id) > 0 {
      var i :| 0 <= i < |menu| && menu[i].price > 0 && Qty(l, menu[i].id) > 0;
      PositiveProduct(menu[i].price, Qty(l, menu[i].id));
    }
    if DisplayedTotal(menu, l) != 0 {
      if menu[0].price * Qty(l, menu[0].id) == 0 {
        DisplayedTotalPositiveIff(menu[1..], l);
        var i :| 0 <= i < |menu[1..]| && menu[1..][i].price > 0 && Qty(l, menu[1..][i].id) > 0;
        assert menu[i + 1] == menu[1..][i];
      } else {
        assert menu[0].price != 0 && Qty(l, menu[0].id) != 0;
      }
    }
  }

  lemma PositiveProduct(a: nat, b: nat)
    requires a > 0 && b > 0
    ensures a * b > 0
  {
  }

  /** Ledger entries for dishes that are not on the menu do not move the displayed total. */
  lemma {:induction false} DisplayedTotalIgnoresOffMenu(menu: seq<Dish>, l: Ledger, id: DishId, q: nat)
    requires id !in Ids(menu)
    ensures DisplayedTotal(menu, l[id := q]) == DisplayedTotal(menu, l)
  {
    if |menu| > 0 {
      assert menu[0] in menu;
      assert Ids(menu[1..]) <= Ids(menu) by {
        forall x | x in Ids(menu[1..]) ensures x in Ids(menu) {
          var d :| d in menu[1..] && d.id == x;
          assert d in menu;
        }
      }
      DisplayedTotalIgnoresOffMenu(menu[1..], l, id, q);
    }
  }

  /** Putting a dish with a fresh id in front of the menu adds its `price * count` to the committed total. */
  lemma CommitTotalCons(l: Ledger, d: Dish, rest: seq<Dish>)
    requires d.id !in Ids(rest)
    ensures LinesTotal(BuildItems(l, [d] + rest)) == LinesTotal(BuildItems(l, rest)) + d.price * Qty(l, d.id)
  {
    var a := BuildItems(l, [d] + rest);
    var b := BuildItems(l, rest);
    BuildItemsShape(l, [d] + rest, rest);
    forall i | 0 <= i < |a| ensures a[i].dishId in l {
      assert LineIds(a)[i] in LineIds(a);
    }
    forall i | 0 <= i < |b| ensures b[i].dishId in l {
      assert LineIds(b)[i] in LineIds(b);
    }
    ConsTotal(a, b, l, d, rest);
  }

  /**
   * Two line lists over the same dishes, one priced against `[d] + rest` and one
   * against `rest`, differ in total by `d`'s price times its count.
   */
  lemma ConsTotal(a: seq<SaleLine>, b: seq<SaleLine>, l: Ledger, d: Dish, rest: seq<Dish>)
    requires d.id !in Ids(rest)
    requires LineIds(a) == LineIds(b)
    requires StrictlyAscending(LineIds(a))
    requires forall k :: k in LineIds(a) <==> k in l && l[k] > 0
    requires forall i :: 0 <= i < |a| ==> a[i].dishId in l && a[i].quantity == l[a[i].dishId]
    requires forall i :: 0 <= i < |b| ==> b[i].dishId in l && b[i].quantity == l[b[i].dishId]
    requires forall i :: 0 <= i < |a| ==> a[i].price == PriceOf([d] + rest, a[i].dishId)
    requires forall i :: 0 <= i < |b| ==> b[i].price == PriceOf(rest, b[i].dishId)
    ensures LinesTotal(a) == LinesTotal(b) + d.price * Qty(l, d.id)
  {
    assert |a| == |LineIds(a)| == |LineIds(b)| == |b|;
    forall i | 0 <= i < |a|
      ensures a[i].dishId == b[i].dishId && a[i].quantity == b[i].quantity
      ensures a[i].dishId != d.id ==> a[i].price == b[i].price
      ensures a[i].dishId == d.id ==> a[i].price == d.price && b[i].price == 0 && a[i].quantity == Qty(l, d.id)
    {
      assert LineIds(a)[i] == LineIds(b)[i];
      PriceOfCons(d, rest, a[i].dishId);
    }
    AscendingIsDistinct(LineIds(a));
    LinesTotalReprice(a, b, d.id, d.price, Qty(l, d.id));
    if d.id !in LineIds(a) {
      assert Qty(l, d.id) == 0;
    }
  }

  /**
   * With a menu read from the store (distinct ids), the total the page shows
   * is the total `saveDailySales` writes: `price * quantity` over the committed
   * lines equals `price * count` over the menu.
   */
  lemma {:induction false} DisplayedTotalMatchesCommit(menu: seq<Dish>, l: Ledger)
    requires DistinctIds(menu)
    ensures DisplayedTotal(menu, l) == LinesTotal(BuildItems(l, menu))
  {
    if |menu| == 0 {
      CommitTotalEmptyMenu(l, menu);
    } else {
      var d, rest := menu[0], menu[1..];
      DistinctTail(menu);
      DisplayedTotalMatchesCommit(rest, l);
      assert menu == [d] + rest;
      CommitTotalCons(l, d, rest);
      assert DisplayedTotal(menu, l) == d.price * Qty(l, d.id) + DisplayedTotal(rest, l);
    }
  }

  /** Against an empty menu every committed line is priced 0. */
  lemma CommitTotalEmptyMenu(l: Ledger, menu: seq<Dish>)
    requires |menu| == 0
    ensures LinesTotal(BuildItems(l, menu)) == 0
  {
    var a := BuildItems(l, menu);
    forall i | 0 <= i < |a| ensures a[i].price == 0 {
      NotOnEmptyMenu(menu, a[i].dishId);
    }
    UnpricedLinesTotal(a);
  }

  /** Nothing is priced on an empty menu. */
  lemma NotOnEmptyMenu(menu: seq<Dish>, id: DishId)
    requires |menu| == 0
    ensures PriceOf(menu, id) == 0
  {
    assert id !in Ids(menu);
  }

  /** The rest of a menu with distinct ids has distinct ids and lacks the first dish's id. */
  lemma DistinctTail(menu: seq<Dish>)
    requires DistinctIds(menu) && |menu| > 0
    ensures DistinctIds(menu[1..]) && menu[0].id !in Ids(menu[1..])
  {
    var rest := menu[1..];
    forall i, j | 0 <= i < j < |rest| ensures rest[i].id != rest[j].id {
      assert rest[i] == menu[i + 1] && rest[j] == menu[j + 1];
    }
    forall e | e in rest ensures e.id != menu[0].id {
      var j :| 0 <= j < |rest| && rest[j] == e;
      assert menu[j + 1] == e;
    }
  }
}
