/**
 * Enumeration order of a JavaScript `Record<number, …>`: `Object.entries` lists
 * integer-like keys in ascending numeric order. Dish ids are positive serials,
 * so the ledger's entries are visited in ascending dish-id order.
 */
module Keys {

  predicate IsMin(s: set<int>, m: int) {
    m in s && forall x :: x in s ==> m <= x
  }

  /** A non-empty set has a member to pick. */
  lemma NonEmptyHasMember(s: set<int>)
    requires s != {}
    ensures exists y :: y in s
  {
    if forall y :: y !in s {
      assert false;
    }
  }

  lemma {:induction false} MinExists(s: set<int>)
    requires s != {}
    ensures exists m :: IsMin(s, m)
    decreases |s|
  {
    NonEmptyHasMember(s);
    var y :| y in s;
    var rest := s - {y};
    assert forall z :: z in s ==> z == y || z in rest;
    if rest == {} {
      assert IsMin(s, y);
    } else {
      MinExists(rest);
      var m' :| IsMin(rest, m');
      if y < m' {
        assert IsMin(s, y);
      } else {
        assert IsMin(s, m');
      }
    }
  }

  /** The least element of a non-empty set. */
  function Min(s: set<int>): (m: int)
    requires s != {}
    ensures m in s
    ensures forall x :: x in s ==> m <= x
  {
    MinExists(s);
    var m :| IsMin(s, m);
    m
  }

  ghost predicate StrictlyAscending(r: seq<int>) {
    forall i, j :: 0 <= i < j < |r| ==> r[i] < r[j]
  }

  /** The elements of `s`, each once, in ascending order. */
  function AscendingKeys(s: set<int>): (r: seq<int>)
    ensures |r| == |s|
    ensures forall k :: k in r <==> k in s
    ensures StrictlyAscending(r)
    decreases |s|
  {
    if s == {} then []
    else
      var m := Min(s);
      var rest := AscendingKeys(s - {m});
      assert forall k :: k in rest ==> m < k;
      PrependAscending(m, rest);
      assert forall k :: k in [m] + rest <==> k == m || k in rest;
      [m] + rest
  }

  /** A key below every key of an ascending sequence can be put in front of it. */
  lemma PrependAscending(m: int, rest: seq<int>)
    requires StrictlyAscending(rest)
    requires forall k :: k in rest ==> m < k
    ensures StrictlyAscending([m] + rest)
  {
    var r := [m] + rest;
    forall i, j | 0 <= i < j < |r| ensures r[i] < r[j] {
      assert r[j] == rest[j - 1];
      if i > 0 {
        assert r[i] == rest[i - 1];
      } else {
        assert rest[j - 1] in rest;
      }
    }
  }

  /** The tail of an ascending sequence is ascending and above its head. */
  lemma AscendingTail(ks: seq<int>)
    requires StrictlyAscending(ks) && |ks| > 0
    ensures StrictlyAscending(ks[1..])
    ensures forall x :: x in ks[1..] ==> ks[0] < x
  {
    var tail := ks[1..];
    forall i, j | 0 <= i < j < |tail| ensures tail[i] < tail[j] {
      assert tail[i] == ks[i + 1] && tail[j] == ks[j + 1];
    }
    forall x | x in tail ensures ks[0] < x {
      var j :| 0 <= j < |tail| && tail[j] == x;
      assert ks[j + 1] == x;
    }
  }

  /** Ascending sequences hold no key twice. */
  lemma AscendingIsDistinct(r: seq<int>)
    requires StrictlyAscending(r)
    ensures forall i, j :: 0 <= i < |r| && 0 <= j < |r| && r[i] == r[j] ==> i == j
  {
  }

  /** A strictly ascending sequence is determined by its members. */
  lemma {:induction false} AscendingSameMembers(x: seq<int>, y: seq<int>)
    requires forall k :: k in x <==> k in y
    requires StrictlyAscending(x) && StrictlyAscending(y)
    ensures x == y
  {
    assert |x| > 0 ==> x[0] in x && x[0] in y;
    assert |y| > 0 ==> y[0] in y && y[0] in x;
    if |x| > 0 && |y| > 0 {
      var i :| 0 <= i < |x| && x[i] == y[0];
      var j :| 0 <= j < |y| && y[j] == x[0];
      assert x[0] <= x[i] && y[0] <= y[j];
      var x', y' := x[1..], y[1..];
      forall k ensures k in x' <==> k in y' {
        if k in x' {
          var m :| 0 <= m < |x'| && x'[m] == k;
          assert x[m + 1] == k;
        }
        if k in y' {
          var m :| 0 <= m < |y'| && y'[m] == k;
          assert y[m + 1] == k;
        }
        assert k in x <==> k == x[0] || k in x';
        assert k in y <==> k == y[0] || k in y';
      }
      AscendingSameMembers(x', y');
      assert x == [x[0]] + x' && y == [y[0]] + y';
    }
  }
}
