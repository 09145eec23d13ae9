/**
 * The in-memory menu of the normalised shop: categories and dishes as the
 * shop context holds them, with the lookups the rest of the app performs on them.
 */
module Menu {
  import opened Wrappers
  import opened Ledger

  datatype Category = Category(id: int, name: string)

  /**
   * A dish as held by the shop context: `categoryName` is the name joined in from
   * the categories table, absent when the join found nothing.
   */
  datatype Dish = Dish(id: DishId, name: string, categoryId: int, categoryName: Option<string>, price: nat)

  const Uncategorized: string := "Uncategorized"

  /** `dish.category_name || "Uncategorized"`: a missing or empty name is falsy. */
  function Label(d: Dish): string {
    if d.categoryName.Some? && d.categoryName.value != "" then d.categoryName.value else Uncategorized
  }

  /**
   * The distinct strings of `ls` in order of first occurrence: the key order a
   * JavaScript object gets when string keys are inserted in the order of `ls`.
   */
  function FirstSeen(ls: seq<string>): (r: seq<string>)
    ensures forall x :: x in r <==> x in ls
    ensures forall i, j :: 0 <= i < j < |r| ==> r[i] != r[j]
  {
    if |ls| == 0 then []
    else
      var prev := FirstSeen(ls[..|ls| - 1]);
      var last := ls[|ls| - 1];
      assert forall x :: x in ls <==> x in ls[..|ls| - 1] || x == last;
      if last in prev then prev
      else
        assert forall i :: 0 <= i < |prev| ==> prev[i] != last;
        prev + [last]
  }

  /** Appending a string adds it to the first-occurrence order only if it is new. */
  lemma FirstSeenSnoc(ls: seq<string>, x: string)
    ensures FirstSeen(ls + [x]) == if x in FirstSeen(ls) then FirstSeen(ls) else FirstSeen(ls) + [x]
  {
    assert (ls + [x])[..|ls|] == ls;
  }

  function Ids(menu: seq<Dish>): set<DishId> {
    set d | d in menu :: d.id
  }

  /** Dish ids are primary keys, so a menu read from the store never repeats one. */
  ghost predicate DistinctIds(menu: seq<Dish>) {
    forall i, j :: 0 <= i < j < |menu| ==> menu[i].id != menu[j].id
  }

  /** `dishes.find((d) => d.id === id)`: the first dish carrying the id, if any. */
  function FindDish(menu: seq<Dish>, id: DishId): (r: Option<Dish>)
    ensures r.None? <==> id !in Ids(menu)
    ensures r.Some? ==> r.value.id == id
    ensures r.Some? ==> exists i :: 0 <= i < |menu| && menu[i] == r.value && forall j :: 0 <= j < i ==> menu[j].id != id
  {
    if |menu| == 0 then None
    else if menu[0].id == id then Some(menu[0])
    else
      var r := FindDish(menu[1..], id);
      assert Ids(menu) == {menu[0].id} + Ids(menu[1..]) by {
        assert forall d :: d in menu <==> d == menu[0] || d in menu[1..];
      }
      if r.Some? then
        var i :| 0 <= i < |menu[1..]| && menu[1..][i] == r.value && forall j :: 0 <= j < i ==> menu[1..][j].id != id;
        assert menu[i + 1] == r.value;
        r
      else r
  }

  /** With distinct ids, the dish found is the one carrying the id. */
  lemma FindDishUnique(menu: seq<Dish>, i: nat)
    requires DistinctIds(menu)
    requires i < |menu|
    ensures FindDish(menu, menu[i].id) == Some(menu[i])
  {
    var r := FindDish(menu, menu[i].id);
    var k :| 0 <= k < |menu| && menu[k] == r.value && forall j :: 0 <= j < k ==> menu[j].id != menu[i].id;
    assert k == i;
  }

  /** `dish?.price || 0`: the current menu price of the dish, 0 when it is not on the menu. */
  function PriceOf(menu: seq<Dish>, id: DishId): (r: nat)
    ensures id !in Ids(menu) ==> r == 0
    ensures DistinctIds(menu) ==> forall i :: 0 <= i < |menu| && menu[i].id == id ==> r == menu[i].price
  {
    var found := FindDish(menu, id);
    assert DistinctIds(menu) ==> forall i :: 0 <= i < |menu| && menu[i].id == id ==> found == Some(menu[i]) by {
      if DistinctIds(menu) {
        forall i | 0 <= i < |menu| && menu[i].id == id
          ensures found == Some(menu[i])
        {
          FindDishUnique(menu, i);
        }
      }
    }
    if found.Some? then found.value.price else 0
  }

  /** Taking the first dish off a menu with distinct ids changes only that dish's price. */
  lemma PriceOfCons(d: Dish, rest: seq<Dish>, k: DishId)
    requires d.id !in Ids(rest)
    ensures PriceOf([d] + rest, k) == if k == d.id then d.price else PriceOf(rest, k)
  {
    var menu := [d] + rest;
    assert menu[1..] == rest;
  }

  /** Two menus that list the same dishes in the same order, prices aside. */
  ghost predicate SameButPrices(m1: seq<Dish>, m2: seq<Dish>) {
    |m1| == |m2| && forall i :: 0 <= i < |m1| ==> m1[i].(price := 0) == m2[i].(price := 0)
  }

  /** Repricing the menu does not change which dish a lookup finds, only its price. */
  lemma {:induction false} FindDishReprice(m1: seq<Dish>, m2: seq<Dish>, id: DishId)
    requires SameButPrices(m1, m2)
    ensures FindDish(m1, id).Some? <==> FindDish(m2, id).Some?
    ensures FindDish(m1, id).Some? ==> FindDish(m1, id).value.(price := 0) == FindDish(m2, id).value.(price := 0)
  {
    if |m1| > 0 {
      assert m1[0].(price := 0) == m2[0].(price := 0);
      if m1[0].id != id {
        assert SameButPrices(m1[1..], m2[1..]) by {
          forall i | 0 <= i < |m1[1..]| ensures m1[1..][i].(price := 0) == m2[1..][i].(price := 0) {
            assert m1[1..][i] == m1[i + 1] && m2[1..][i] == m2[i + 1];
          }
        }
        FindDishReprice(m1[1..], m2[1..], id);
      }
    }
  }

  /** ASCII case folding, the part of `toLowerCase` the shop's category names exercise. */
  function LowerChar(c: char): char {
    if 'A' <= c <= 'Z' then (c as int + 32) as char else c
  }

  function Lower(s: string): (r: string)
    ensures |r| == |s|
    ensures forall i :: 0 <= i < |s| ==> r[i] == LowerChar(s[i])
  {
    seq(|s|, i requires 0 <= i < |s| => LowerChar(s[i]))
  }

  /** Folding twice is folding once, so "same name ignoring case" is an equivalence. */
  lemma LowerIdempotent(s: string)
    ensures Lower(Lower(s)) == Lower(s)
  {
  }

  /**
   * `categories.find((c) => c.name.toLowerCase() === name.toLowerCase())`:
   * the first category whose name equals `name` ignoring case.
   */
  function FindCategoryByName(cats: seq<Category>, name: string): (r: Option<Category>)
    ensures r.None? <==> forall c :: c in cats ==> Lower(c.name) != Lower(name)
    ensures r.Some? ==> r.value in cats && Lower(r.value.name) == Lower(name)
    ensures r.Some? ==> exists i :: 0 <= i < |cats| && cats[i] == r.value && forall j :: 0 <= j < i ==> Lower(cats[j].name) != Lower(name)
  {
    if |cats| == 0 then None
    else if Lower(cats[0].name) == Lower(name) then Some(cats[0])
    else
      var r := FindCategoryByName(cats[1..], name);
      assert forall c :: c in cats <==> c == cats[0] || c in cats[1..];
      if r.Some? then
        var i :| 0 <= i < |cats[1..]| && cats[1..][i] == r.value && forall j :: 0 <= j < i ==> Lower(cats[1..][j].name) != Lower(name);
        assert cats[i + 1] == r.value;
        r
      else r
  }
}
