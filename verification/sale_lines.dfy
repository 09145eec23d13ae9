/**
 * Sale line items: what `saveDailySales` builds from the ledger and the menu,
 * and what `fetchSalesByDate` hands back to the ledger.
 */
module SaleLines {
  import opened Ledger
  import opened Keys
  import opened Menu

  /** One dish's contribution to a day's sale; `price` is a snapshot taken at commit time. */
  datatype SaleLine = SaleLine(dishId: DishId, quantity: nat, price: nat)

  function Amount(line: SaleLine): nat {
    line.price * line.quantity
  }

  /**
   * `items.reduce((total, item) => total + item.price * item.quantity, 0)`.
   * Integer addition is associative, so summing from the front gives the fold's value.
   */
  function LinesTotal(lines: seq<SaleLine>): (r: nat)
    ensures forall i :: 0 <= i < |lines| ==> Amount(lines[i]) <= r
  {
    if |lines| == 0 then 0
    else
      assert forall i :: 1 <= i < |lines| ==> lines[i] == lines[1..][i - 1];
      Amount(lines[0]) + LinesTotal(lines[1..])
  }

  lemma {:induction false} LinesTotalAppend(a: seq<SaleLine>, b: seq<SaleLine>)
    ensures LinesTotal(a + b) == LinesTotal(a) + LinesTotal(b)
    decreases |a|
  {
    if |a| == 0 {
      assert a + b == b;
    } else {
      assert (a + b)[1..] == a[1..] + b;
      LinesTotalAppend(a[1..], b);
    }
  }

  /** The total is zero exactly when every line has a zero amount. */
  lemma {:induction false} LinesTotalZero(lines: seq<SaleLine>)
    ensures LinesTotal(lines) == 0 <==> forall i :: 0 <= i < |lines| ==> Amount(lines[i]) == 0
    decreases |lines|
  {
    if |lines| > 0 {
      LinesTotalZero(lines[1..]);
      assert forall i :: 1 <= i < |lines| ==> lines[i] == lines[1..][i - 1];
    }
  }

  /** Lines that are all priced 0 total 0, whatever their quantities. */
  lemma {:induction false} UnpricedLinesTotal(lines: seq<SaleLine>)
    requires forall i :: 0 <= i < |lines| ==> lines[i].price == 0
    ensures LinesTotal(lines) == 0
  {
    if |lines| > 0 {
      UnpricedLinesTotal(lines[1..]);
    }
  }

  /** The entries of the ledger that a commit persists. */
  function PositivePart(l: Ledger): (r: Ledger)
    ensures forall k :: k in r <==> k in l && l[k] > 0
    ensures forall k :: k in r ==> r[k] == l[k]
  {
    map k | k in l && l[k] > 0 :: l[k]
  }

  /** The dish ids of the lines, in line order. */
  function LineIds(lines: seq<SaleLine>): (r: seq<DishId>)
    ensures |r| == |lines|
    ensures forall i :: 0 <= i < |lines| ==> r[i] == lines[i].dishId
  {
    seq(|lines|, i requires 0 <= i < |lines| => lines[i].dishId)
  }

  /**
   * The filter-then-map of `saveDailySales` over the ledger keys `ks`, visited in
   * order: each key with a positive quantity yields one line priced from the menu.
   */
  function LinesFor(ks: seq<DishId>, l: Ledger, menu: seq<Dish>): (r: seq<SaleLine>)
    requires forall k :: k in ks ==> k in l
    requires StrictlyAscending(ks)
    ensures forall k :: k in LineIds(r) <==> k in ks && l[k] > 0
    ensures forall i :: 0 <= i < |r| ==> r[i].quantity == l[r[i].dishId]
    ensures forall i :: 0 <= i < |r| ==> r[i].price == PriceOf(menu, r[i].dishId)
    ensures StrictlyAscending(LineIds(r))
  {
    if |ks| == 0 then []
    else
      AscendingTail(ks);
      var rest := LinesFor(ks[1..], l, menu);
      forall i | 0 <= i < |rest| ensures rest[i].dishId in l {
        assert LineIds(rest)[i] in LineIds(rest);
      }
      LinesForStep(ks, l, menu, rest);
      if l[ks[0]] > 0 then [SaleLine(ks[0], l[ks[0]], PriceOf(menu, ks[0]))] + rest else rest
  }

  /** One step of the filter-then-map: the head key's line, if any, goes in front of the tail's lines. */
  lemma LinesForStep(ks: seq<DishId>, l: Ledger, menu: seq<Dish>, rest: seq<SaleLine>)
    requires |ks| > 0
    requires forall k :: k in ks ==> k in l
    requires StrictlyAscending(ks[1..]) && forall x :: x in ks[1..] ==> ks[0] < x
    requires forall k :: k in LineIds(rest) <==> k in ks[1..] && l[k] > 0
    requires forall i :: 0 <= i < |rest| ==> rest[i].dishId in l && rest[i].quantity == l[rest[i].dishId]
    requires forall i :: 0 <= i < |rest| ==> rest[i].price == PriceOf(menu, rest[i].dishId)
    requires StrictlyAscending(LineIds(rest))
    ensures var r := if l[ks[0]] > 0 then [SaleLine(ks[0], l[ks[0]], PriceOf(menu, ks[0]))] + rest else rest;
            && (forall k :: k in LineIds(r) <==> k in ks && l[k] > 0)
            && (forall i :: 0 <= i < |r| ==> r[i].quantity == l[r[i].dishId])
            && (forall i :: 0 <= i < |r| ==> r[i].price == PriceOf(menu, r[i].dishId))
            && StrictlyAscending(LineIds(r))
  {
    var k := ks[0];
    assert forall x :: x in ks <==> x == k || x in ks[1..];
    if l[k] > 0 {
      var line := SaleLine(k, l[k], PriceOf(menu, k));
      PrependLine(line, rest);
      var r := [line] + rest;
      assert forall i :: 1 <= i < |r| ==> r[i] == rest[i - 1];
    }
  }

  /** A line whose dish id is below every id of `rest` keeps the ids ascending when put in front. */
  lemma PrependLine(line: SaleLine, rest: seq<SaleLine>)
    requires StrictlyAscending(LineIds(rest))
    requires forall x :: x in LineIds(rest) ==> line.dishId < x
    ensures LineIds([line] + rest) == [line.dishId] + LineIds(rest)
    ensures StrictlyAscending(LineIds([line] + rest))
  {
    assert LineIds([line] + rest) == [line.dishId] + LineIds(rest);
    PrependAscending(line.dishId, LineIds(rest));
  }

  /**
   * `saveDailySales`' item list: one line per ledger entry with a positive
   * quantity, in ascending dish-id order, each priced at the dish's current
   * menu price (0 for a dish no longer on the menu).
   */
  function BuildItems(l: Ledger, menu: seq<Dish>): (r: seq<SaleLine>)
    ensures forall k :: k in LineIds(r) <==> k in l && l[k] > 0
    ensures forall i :: 0 <= i < |r| ==> r[i].quantity == l[r[i].dishId]
    ensures forall i :: 0 <= i < |r| ==> r[i].price == PriceOf(menu, r[i].dishId)
    ensures StrictlyAscending(LineIds(r))
    ensures |r| == |PositivePart(l)|
  {
    var r := LinesFor(AscendingKeys(l.Keys), l, menu);
    LinesMatchPositivePart(r, l);
    r
  }

  /** Lines with distinct, ascending ids covering exactly the positive entries are as many as those entries. */
  lemma LinesMatchPositivePart(r: seq<SaleLine>, l: Ledger)
    requires forall k :: k in LineIds(r) <==> k in l && l[k] > 0
    requires StrictlyAscending(LineIds(r))
    ensures |r| == |PositivePart(l)|
  {
    var ids := LineIds(r);
    AscendingIsDistinct(ids);
    var p := PositivePart(l);
    assert p.Keys == set i | 0 <= i < |ids| :: ids[i] by {
      forall k | k in p.Keys ensures k in set i | 0 <= i < |ids| :: ids[i] {
        var i :| 0 <= i < |ids| && ids[i] == k;
      }
    }
    DistinctSeqCard(ids);
  }

  /** A sequence with no repeated element has as many distinct elements as positions. */
  lemma {:induction false} DistinctSeqCard(s: seq<int>)
    requires forall i, j :: 0 <= i < |s| && 0 <= j < |s| && s[i] == s[j] ==> i == j
    ensures |set i | 0 <= i < |s| :: s[i]| == |s|
    decreases |s|
  {
    if |s| > 0 {
      var t := s[..|s| - 1];
      DistinctSeqCard(t);
      var st := set i | 0 <= i < |t| :: t[i];
      var ss := set i | 0 <= i < |s| :: s[i];
      assert ss == st + {s[|s| - 1]} by {
        forall x | x in ss ensures x in st + {s[|s| - 1]} {
          var i :| 0 <= i < |s| && s[i] == x;
          if i < |s| - 1 { assert t[i] == x; }
        }
      }
      assert s[|s| - 1] !in st;
    }
  }

  /**
   * The ledger that `fetchSalesByDate` publishes for a stored sale: walking the
   * lines in order, `quantities[dishId] = quantity`, so a later line for the
   * same dish overwrites an earlier one.
   */
  function LoadLedger(lines: seq<SaleLine>): (r: Ledger)
    ensures forall k :: k in r <==> k in LineIds(lines)
    ensures forall k :: k in r ==> exists i :: 0 <= i < |lines| && lines[i].dishId == k && r[k] == lines[i].quantity
    ensures forall i :: 0 <= i < |lines| && (forall j :: i < j < |lines| ==> lines[j].dishId != lines[i].dishId) ==>
              r[lines[i].dishId] == lines[i].quantity
  {
    if |lines| == 0 then map[]
    else
      var init := lines[..|lines| - 1];
      var last := lines[|lines| - 1];
      assert lines == init + [last];
      LoadLedgerStep(init, last, LoadLedger(init));
      LoadLedger(init)[last.dishId := last.quantity]
  }

  /** One step of `LoadLedger`: writing the last line over the ledger of the others. */
  lemma LoadLedgerStep(init: seq<SaleLine>, last: SaleLine, prev: Ledger)
    requires forall k :: k in prev <==> k in LineIds(init)
    requires forall k :: k in prev ==> exists i :: 0 <= i < |init| && init[i].dishId == k && prev[k] == init[i].quantity
    requires forall i :: 0 <= i < |init| && (forall j :: i < j < |init| ==> init[j].dishId != init[i].dishId) ==>
               prev[init[i].dishId] == init[i].quantity
    ensures var lines := init + [last];
            var r := prev[last.dishId := last.quantity];
            && (forall k :: k in r <==> k in LineIds(lines))
            && (forall k :: k in r ==> exists i :: 0 <= i < |lines| && lines[i].dishId == k && r[k] == lines[i].quantity)
            && (forall i :: 0 <= i < |lines| && (forall j :: i < j < |lines| ==> lines[j].dishId != lines[i].dishId) ==>
                  r[lines[i].dishId] == lines[i].quantity)
  {
    var lines := init + [last];
    var n := |init|;
    var r := prev[last.dishId := last.quantity];
    assert lines[..n] == init;
    assert LineIds(lines) == LineIds(init) + [last.dishId];
    forall k | k in r
      ensures exists i :: 0 <= i < |lines| && lines[i].dishId == k && r[k] == lines[i].quantity
    {
      if k == last.dishId {
        assert lines[n].dishId == k;
      } else {
        var i :| 0 <= i < n && init[i].dishId == k && prev[k] == init[i].quantity;
        assert lines[i] == init[i];
      }
    }
    forall i | 0 <= i < |lines| && (forall j :: i < j < |lines| ==> lines[j].dishId != lines[i].dishId)
      ensures r[lines[i].dishId] == lines[i].quantity
    {
      if i < n {
        assert lines[i] == init[i];
        assert lines[n].dishId != lines[i].dishId;
        forall j | i < j < n ensures init[j].dishId != init[i].dishId {
          assert lines[j] == init[j];
        }
      }
    }
  }

  /**
   * Round trip: loading the ledger back from the lines a commit built gives
   * the committed ledger without its zero entries.
   */
  lemma LoadLedgerOfBuildItems(l: Ledger, menu: seq<Dish>)
    ensures LoadLedger(BuildItems(l, menu)) == PositivePart(l)
  {
    LoadLedgerOfLines(BuildItems(l, menu), l);
  }

  /** Lines listing exactly the positive entries of `l`, with their quantities, load back to those entries. */
  lemma LoadLedgerOfLines(lines: seq<SaleLine>, l: Ledger)
    requires forall k :: k in LineIds(lines) <==> k in l && l[k] > 0
    requires forall i :: 0 <= i < |lines| ==> lines[i].quantity == l[lines[i].dishId]
    ensures LoadLedger(lines) == PositivePart(l)
  {
    var r := LoadLedger(lines);
    var p := PositivePart(l);
    forall k | k in r
      ensures k in p && r[k] == p[k]
    {
      var i :| 0 <= i < |lines| && lines[i].dishId == k && r[k] == lines[i].quantity;
    }
    forall k | k in p
      ensures k in r
    {
      assert k in LineIds(lines);
    }
    MapExtensional(r, p);
  }

  lemma MapExtensional(a: Ledger, b: Ledger)
    requires forall k :: k in a <==> k in b
    requires forall k :: k in a ==> a[k] == b[k]
    ensures a == b
  {
    forall k | k in a ensures k in b && a[k] == b[k] {}
    forall k | k in b ensures k in a {}
  }

  /** An ascending id sequence whose only member is `k` is exactly `[k]`. */
  lemma SingletonIds(ids: seq<DishId>, k: DishId)
    requires forall j :: j in ids <==> j == k
    requires StrictlyAscending(ids)
    ensures ids == [k]
  {
    AscendingIsDistinct(ids);
    DistinctSeqCard(ids);
    var elems := set i | 0 <= i < |ids| :: ids[i];
    forall j | j in elems ensures j == k {
      var i :| 0 <= i < |ids| && ids[i] == j;
      assert ids[i] in ids;
    }
    assert k in ids;
    var i0 :| 0 <= i0 < |ids| && ids[i0] == k;
    assert k in elems;
    assert elems == {k};
    assert ids[0] in ids;
  }

  /** A ledger with a single positive entry commits exactly one line. */
  lemma BuildItemsSingle(l: Ledger, menu: seq<Dish>, k: DishId)
    requires k in l && l[k] > 0
    requires forall j :: j in l && j != k ==> l[j] == 0
    ensures BuildItems(l, menu) == [SaleLine(k, l[k], PriceOf(menu, k))]
  {
    var r := BuildItems(l, menu);
    forall j ensures j in LineIds(r) <==> j == k {
      assert j in LineIds(r) <==> j in l && l[j] > 0;
    }
    SingletonIds(LineIds(r), k);
    assert r[0].dishId == k;
  }

  /** Committing the same ledger against two menus yields the same dishes in the same order. */
  lemma BuildItemsShape(l: Ledger, m1: seq<Dish>, m2: seq<Dish>)
    ensures LineIds(BuildItems(l, m1)) == LineIds(BuildItems(l, m2))
  {
    AscendingSameMembers(LineIds(BuildItems(l, m1)), LineIds(BuildItems(l, m2)));
  }

  /**
   * Two line lists that differ only in the price of dish `k`, which occurs at
   * most once, at quantity `q`, priced `p` in `a` and 0 in `b`: their totals
   * differ by `p * q` when `k` occurs and not at all otherwise.
   */
  lemma {:induction false} LinesTotalReprice(a: seq<SaleLine>, b: seq<SaleLine>, k: DishId, p: nat, q: nat)
    requires |a| == |b|
    requires forall i :: 0 <= i < |a| ==> a[i].dishId == b[i].dishId && a[i].quantity == b[i].quantity
    requires forall i :: 0 <= i < |a| && a[i].dishId != k ==> a[i].price == b[i].price
    requires forall i :: 0 <= i < |a| && a[i].dishId == k ==> a[i].price == p && b[i].price == 0 && a[i].quantity == q
    requires forall i, j :: 0 <= i < |a| && 0 <= j < |a| && a[i].dishId == a[j].dishId ==> i == j
    ensures LinesTotal(a) == LinesTotal(b) + (if k in LineIds(a) then p * q else 0)
  {
    if |a| > 0 {
      var a' := a[1..];
      var b' := b[1..];
      LinesTotalReprice(a', b', k, p, q);
      assert LineIds(a) == [a[0].dishId] + LineIds(a');
      if a[0].dishId == k {
        assert k !in LineIds(a') by {
          forall i | 0 <= i < |a'| ensures a'[i].dishId != k {
            assert a[i + 1] == a'[i];
          }
        }
      }
    }
  }
}
