/**
 * `sorted(...)` over a Python set, whose iteration order is unspecified: the
 * model lists the set in some order that the sort key allows.
 */
module SortedListing {

  /** The pair `a` comes no later than `b` in lexicographic order. */
  predicate LexLeq(a: (int, int), b: (int, int))
  {
    a.0 < b.0 || (a.0 == b.0 && a.1 <= b.1)
  }

  /** `order` lists the elements of `s`, each once. */
  predicate Lists<T(==)>(order: seq<T>, s: set<T>)
  {
    && (forall i :: 0 <= i < |order| ==> order[i] in s)
    && (forall x :: x in s ==> x in order)
    && (forall i, j :: 0 <= i < j < |order| ==> order[i] != order[j])
  }

  /** `order` is sorted by `key`, smallest first. */
  predicate SortedBy<T>(order: seq<T>, key: T -> (int, int))
  {
    forall i, j :: 0 <= i < j < |order| ==> LexLeq(key(order[i]), key(order[j]))
  }

  /** The position after every element whose key is no larger than that of `x`. */
  method InsertionPoint<T>(order: seq<T>, x: T, key: T -> (int, int)) returns (k: nat)
    requires SortedBy(order, key)
    ensures k <= |order|
    ensures forall i :: 0 <= i < k ==> LexLeq(key(order[i]), key(x))
    ensures forall i :: k <= i < |order| ==> !LexLeq(key(order[i]), key(x))
  {
    k := 0;
    while k < |order| && LexLeq(key(order[k]), key(x))
      invariant 0 <= k <= |order|
      invariant forall i :: 0 <= i < k ==> LexLeq(key(order[i]), key(x))
    {
      k := k + 1;
    }
    if k < |order| {
      forall i | k <= i < |order| ensures !LexLeq(key(order[i]), key(x)) {
        if i > k {
          assert LexLeq(key(order[k]), key(order[i]));
        }
      }
    }
  }

  /** Inserting at the insertion point keeps the order sorted. */
  lemma {:induction false} InsertedSorted<T>(order: seq<T>, x: T, key: T -> (int, int), k: nat)
    requires SortedBy(order, key) && k <= |order|
    requires forall i :: 0 <= i < k ==> LexLeq(key(order[i]), key(x))
    requires forall i :: k <= i < |order| ==> !LexLeq(key(order[i]), key(x))
    ensures SortedBy(order[..k] + [x] + order[k..], key)
  {
    var r := order[..k] + [x] + order[k..];
    forall i, j | 0 <= i < j < |r| ensures LexLeq(key(r[i]), key(r[j])) {
      if i < k && j < k {
        assert r[i] == order[i] && r[j] == order[j];
      } else if i < k && j == k {
        assert r[i] == order[i];
      } else if i < k {
        assert r[i] == order[i] && r[j] == order[j - 1];
      } else if i == k {
        assert r[j] == order[j - 1];
      } else {
        assert r[i] == order[i - 1] && r[j] == order[j - 1];
      }
    }
  }

  /**
   * `sorted(s, key=...)` of a set: its elements in an order the key allows,
   * elements with equal keys in whatever order the set yields them.
   */
  method ListSorted<T(==)>(s: set<T>, key: T -> (int, int)) returns (order: seq<T>)
    ensures Lists(order, s) && SortedBy(order, key)
  {
    order := [];
    var remaining := s;
    while remaining != {}
      invariant remaining <= s
      invariant forall i :: 0 <= i < |order| ==> order[i] in s && order[i] !in remaining
      invariant forall x :: x in s && x !in remaining ==> x in order
      invariant forall i, j :: 0 <= i < j < |order| ==> order[i] != order[j]
      invariant SortedBy(order, key)
      decreases remaining
    {
      var x :| x in remaining;
      var k := InsertionPoint(order, x, key);
      InsertedSorted(order, x, key, k);
      ghost var before := order;
      order := order[..k] + [x] + order[k..];
      assert forall i :: 0 <= i < k ==> order[i] == before[i];
      assert forall i :: k < i < |order| ==> order[i] == before[i - 1];
      assert order[k] == x;
      remaining := remaining - {x};
    }
  }
}
