/**
 * Menu maintenance in the shop context: adding a category (reusing one whose
 * name matches ignoring case), adding a dish, and removing a dish. Each makes
 * at most one call to the store; `fails` says whether that call fails, in
 * which case the client state is left as it was.
 */
module Catalog {
  import opened Wrappers
  import opened Ledger
  import opened Menu
  import opened SaleLines
  import opened Store
  import opened SaveSales

  /** The client state, the tables, and the id `addCategory` resolves to (`undefined` on failure). */
  datatype CategoryOutcome = CategoryOutcome(session: Session, db: Db, id: Option<int>)

  /** Category names are unique ignoring case. */
  ghost predicate DistinctNames(cats: seq<Category>) {
    forall i, j :: 0 <= i < j < |cats| ==> Lower(cats[i].name) != Lower(cats[j].name)
  }

  /**
   * `addCategory(name)`: a category whose name equals `name` ignoring case is
   * reused and nothing is written; otherwise one category is inserted and
   * appended to the client's list.
   */
  function AddCategory(s: Session, db: Db, name: string, fails: bool): (r: CategoryOutcome)
    ensures FindCategoryByName(s.categories, name).Some? ==>
              r == CategoryOutcome(s, db, Some(FindCategoryByName(s.categories, name).value.id))
    ensures FindCategoryByName(s.categories, name).None? && fails ==> r == CategoryOutcome(s, db, None)
    ensures FindCategoryByName(s.categories, name).None? && !fails ==>
              && r.id == Some(db.nextId)
              && r.session == s.(categories := s.categories + [Category(db.nextId, name)])
              && r.db.categories == db.categories + [CategoryRow(db.nextId, name)]
              && r.db.dishes == db.dishes && r.db.sales == db.sales && r.db.saleItems == db.saleItems
  {
    match FindCategoryByName(s.categories, name)
    case Some(c) => CategoryOutcome(s, db, Some(c.id))
    case None =>
      if fails then CategoryOutcome(s, db, None)
      else
        var (db', id) := InsertCategory(db, name);
        CategoryOutcome(s.(categories := s.categories + [Category(id, name)]), db', Some(id))
  }

  /** Adding a category keeps the client's category names unique ignoring case. */
  lemma AddCategoryKeepsNamesDistinct(s: Session, db: Db, name: string, fails: bool)
    requires DistinctNames(s.categories)
    ensures DistinctNames(AddCategory(s, db, name, fails).session.categories)
  {
    var cats := AddCategory(s, db, name, fails).session.categories;
    if FindCategoryByName(s.categories, name).None? && !fails {
      assert forall i :: 0 <= i < |s.categories| ==> s.categories[i] in s.categories;
    }
  }

  /**
   * Asking for the same category twice, in any mix of cases, resolves to the
   * same id and the second request writes nothing.
   */
  lemma AddCategoryTwice(s: Session, db: Db, name: string, again: string, fails: bool)
    requires Lower(again) == Lower(name)
    requires AddCategory(s, db, name, fails).id.Some?
    ensures var first := AddCategory(s, db, name, fails);
            var second := AddCategory(first.session, first.db, again, fails);
            second == CategoryOutcome(first.session, first.db, first.id)
  {
    var first := AddCategory(s, db, name, fails);
    var cats := first.session.categories;
    var f := FindCategoryByName(s.categories, name);
    if f.Some? {
      assert FindCategoryByName(cats, again).Some?;
      var c := FindCategoryByName(cats, again).value;
      assert forall k :: 0 <= k < |cats| ==> (Lower(cats[k].name) == Lower(again) <==> Lower(cats[k].name) == Lower(name));
      FirstMatchUnique(cats, name, again, c, f.value);
    } else {
      var n := |s.categories|;
      assert cats[n] == Category(db.nextId, name);
      assert cats[n] in cats;
      var c := FindCategoryByName(cats, again).value;
      var i :| 0 <= i < |cats| && cats[i] == c && forall j :: 0 <= j < i ==> Lower(cats[j].name) != Lower(again);
      forall j | 0 <= j < n ensures Lower(cats[j].name) != Lower(again) {
        assert cats[j] == s.categories[j];
        assert s.categories[j] in s.categories;
      }
      assert Lower(cats[i].name) == Lower(again);
    }
  }

  /** Two names that fold to the same string find the same first category. */
  lemma FirstMatchUnique(cats: seq<Category>, name: string, again: string, c1: Category, c2: Category)
    requires Lower(again) == Lower(name)
    requires FindCategoryByName(cats, again) == Some(c1)
    requires FindCategoryByName(cats, name) == Some(c2)
    ensures c1 == c2
  {
    var i :| 0 <= i < |cats| && cats[i] == c1 && forall j :: 0 <= j < i ==> Lower(cats[j].name) != Lower(again);
    var k :| 0 <= k < |cats| && cats[k] == c2 && forall j :: 0 <= j < k ==> Lower(cats[j].name) != Lower(name);
    assert Lower(cats[i].name) == Lower(name);
    assert Lower(cats[k].name) == Lower(again);
  }

  /** `prev.filter((dish) => dish.id !== id)`. */
  function Without(menu: seq<Dish>, id: DishId): (r: seq<Dish>)
    ensures forall d :: d in r <==> d in menu && d.id != id
    ensures id !in Ids(r)
    ensures |r| <= |menu|
  {
    if |menu| == 0 then []
    else
      assert forall d :: d in menu <==> d == menu[0] || d in menu[1..];
      (if menu[0].id != id then [menu[0]] else []) + Without(menu[1..], id)
  }

  /** Filtering distributes over concatenation, so the dishes kept stay in their order. */
  lemma {:induction false} WithoutAppend(a: seq<Dish>, b: seq<Dish>, id: DishId)
    ensures Without(a + b, id) == Without(a, id) + Without(b, id)
  {
    if |a| == 0 {
      assert a + b == b;
    } else {
      assert (a + b)[1..] == a[1..] + b;
      WithoutAppend(a[1..], b, id);
    }
  }

  /** Removing an id that is not on the menu leaves the menu as it is. */
  lemma {:induction false} WithoutAbsent(menu: seq<Dish>, id: DishId)
    requires id !in Ids(menu)
    ensures Without(menu, id) == menu
  {
    if |menu| > 0 {
      assert menu[0] in menu;
      assert id !in Ids(menu[1..]) by {
        forall d | d in menu[1..] ensures d.id != id {
          assert d in menu;
        }
      }
      WithoutAbsent(menu[1..], id);
    }
  }

  /** What `removeDish` and `addDish` leave: the client state and the tables. */
  datatype Edited = Edited(session: Session, db: Db)

  /**
   * `removeDish(id)`: the dish row is deleted and the client drops every dish
   * with that id; the ledger is not touched. The model leaves the sales and
   * their items alone, without the foreign key from `sale_items.dish_id`.
   */
  function RemoveDish(s: Session, db: Db, id: DishId, fails: bool): (r: Edited)
    ensures fails ==> r == Edited(s, db)
    ensures !fails ==> r.session == s.(dishes := Without(s.dishes, id))
    ensures !fails ==> r.db.sales == db.sales && r.db.saleItems == db.saleItems && r.db.categories == db.categories
    ensures !fails ==> forall row :: row in r.db.dishes <==> row in db.dishes && row.id != id
  {
    if fails then Edited(s, db) else Edited(s.(dishes := Without(s.dishes, id)), DeleteDish(db, id))
  }

  /**
   * A removed dish that still has a positive count is built into the commit's
   * lines at price 0, the price of a dish not on the menu.
   */
  lemma RemovedDishCommittedAtZero(s: Session, db: Db, id: DishId)
    requires id in s.ledger && s.ledger[id] > 0
    ensures var lines := CommittedLines(RemoveDish(s, db, id, false).session);
            exists i :: 0 <= i < |lines| && lines[i] == SaleLine(id, s.ledger[id], 0)
  {
    var s' := RemoveDish(s, db, id, false).session;
    var lines := CommittedLines(s');
    assert id in LineIds(lines);
    var i :| 0 <= i < |lines| && LineIds(lines)[i] == id;
    assert lines[i].price == PriceOf(s'.dishes, id) == 0;
  }

  /** The client's dishes carry distinct ids, all handed out by the store already. */
  ghost predicate MenuIdsIssued(s: Session, db: Db) {
    DistinctIds(s.dishes) && forall i :: 0 <= i < |s.dishes| ==> s.dishes[i].id < db.nextId
  }

  /**
   * `addDish(dish)`: one dish row is inserted with a fresh id, and the client
   * appends it with its category's name joined in (absent when no category has
   * that id).
   */
  function AddDish(s: Session, db: Db, name: string, categoryId: int, price: nat, fails: bool): (r: Edited)
    ensures fails ==> r == Edited(s, db)
    ensures !fails ==> r.db.dishes == db.dishes + [DishRow(db.nextId, name, categoryId, price)]
    ensures !fails ==> r.db.nextId == db.nextId + 1 && r.db.sales == db.sales && r.db.saleItems == db.saleItems
    ensures !fails ==> r.session == s.(dishes := s.dishes + [Dish(db.nextId, name, categoryId, CategoryName(db.categories, categoryId), price)])
    ensures MenuIdsIssued(s, db) ==> MenuIdsIssued(r.session, r.db)
  {
    if fails then Edited(s, db)
    else
      var (db', row) := InsertDish(db, name, categoryId, price);
      var dish := Dish(row.id, row.name, row.categoryId, CategoryName(db'.categories, row.categoryId), row.price);
      Edited(s.(dishes := s.dishes + [dish]), db')
  }

  /** Removing a dish just added gives back the menu as it was. */
  lemma AddThenRemoveDish(s: Session, db: Db, name: string, categoryId: int, price: nat)
    requires MenuIdsIssued(s, db)
    ensures var added := AddDish(s, db, name, categoryId, price, false);
            RemoveDish(added.session, added.db, db.nextId, false).session == s
  {
    var dish := Dish(db.nextId, name, categoryId, CategoryName(db.categories, categoryId), price);
    assert db.nextId !in Ids(s.dishes) by {
      forall d | d in s.dishes ensures d.id != db.nextId {
        var i :| 0 <= i < |s.dishes| && s.dishes[i] == d;
      }
    }
    WithoutAppend(s.dishes, [dish], db.nextId);
    WithoutAbsent(s.dishes, db.nextId);
    assert Without([dish], db.nextId) == [];
  }
}
