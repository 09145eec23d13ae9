/**
 * The per-session quantity ledger of the normalised shop (`quantitySold` in the
 * shop context): for each dish id, the number of units sold so far in this
 * editing session, before it is committed.
 */
module Ledger {

  type DishId = int

  /** `Record<number, number>`; every value is kept at or above 0 by `UpdateQuantity`. */
  type Ledger = map<DishId, nat>

  /** `quantitySold[id] || 0`: an absent entry reads as 0. */
  function Qty(l: Ledger, id: DishId): nat {
    if id in l then l[id] else 0
  }

  /**
   * `updateQuantity(dishId, delta)`: the dish's entry becomes
   * `max(0, current + delta)`; every other entry is kept as it was.
   */
  function UpdateQuantity(l: Ledger, id: DishId, delta: int): (r: Ledger)
    ensures r.Keys == l.Keys + {id}
    ensures Qty(l, id) + delta >= 0 ==> r[id] == Qty(l, id) + delta
    ensures Qty(l, id) + delta < 0 ==> r[id] == 0
    ensures forall e :: e in l && e != id ==> r[e] == l[e]
  {
    var q := Qty(l, id) + delta;
    l[id := if q < 0 then 0 else q]
  }

  /** `resetQuantities()`: every counter reads 0 again. */
  function ResetQuantities(): (r: Ledger)
    ensures forall id :: Qty(r, id) == 0
    ensures |r| == 0
  {
    map[]
  }

  /** Clamping: an update never moves a counter further below its old value than `delta` asks. */
  lemma UpdateNeverNegativeNorAbove(l: Ledger, id: DishId, delta: int)
    ensures 0 <= Qty(UpdateQuantity(l, id, delta), id)
    ensures delta >= 0 ==> Qty(UpdateQuantity(l, id, delta), id) == Qty(l, id) + delta
    ensures Qty(UpdateQuantity(l, id, delta), id) >= Qty(l, id) + delta
  {
  }

  /** Adding `a` then subtracting `b` from a fresh counter yields `max(0, a - b)`. */
  lemma IncrementThenDecrement(l: Ledger, id: DishId, a: nat, b: nat)
    requires Qty(l, id) == 0
    ensures Qty(UpdateQuantity(UpdateQuantity(l, id, a), id, -(b as int)), id) == if a >= b then a - b else 0
  {
  }

  /** Updates of different dishes commute. */
  lemma UpdatesOfDistinctDishesCommute(l: Ledger, x: DishId, dx: int, y: DishId, dy: int)
    requires x != y
    ensures UpdateQuantity(UpdateQuantity(l, x, dx), y, dy) == UpdateQuantity(UpdateQuantity(l, y, dy), x, dx)
  {
  }
}
