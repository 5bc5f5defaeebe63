/**
 * Ordering by a numeric key, as `value_counts`, `nlargest` and
 * `sort_values` need it. Elements with equal keys may come out in any
 * order the sort chooses: pandas does not fix that order either, so nothing
 * in this model depends on it.
 */
module Sorting {

  /** xs is in ascending order of key. */
  ghost predicate SortedBy<T>(xs: seq<T>, key: T -> real) {
    forall i, j :: 0 <= i < j < |xs| ==> key(xs[i]) <= key(xs[j])
  }

  /** No element of xs occurs twice. */
  ghost predicate NoDup<T>(xs: seq<T>) {
    forall i, j :: 0 <= i < j < |xs| ==> xs[i] != xs[j]
  }

  /** x inserted into xs before the first element whose key is not below its own. */
  function Insert<T>(x: T, xs: seq<T>, key: T -> real): (r: seq<T>)
    ensures |r| == |xs| + 1
    ensures multiset(r) == multiset(xs) + multiset{x}
  {
    if xs == [] || key(x) <= key(xs[0]) then [x] + xs
    else
      assert xs == [xs[0]] + xs[1..];
      [xs[0]] + Insert(x, xs[1..], key)
  }

  lemma InsertElement<T>(x: T, xs: seq<T>, key: T -> real, j: nat)
    requires j < |Insert(x, xs, key)|
    ensures Insert(x, xs, key)[j] == x || Insert(x, xs, key)[j] in xs
  {
    var r := Insert(x, xs, key);
    assert r[j] in multiset(r);
  }

  lemma {:induction false} InsertSorted<T>(x: T, xs: seq<T>, key: T -> real)
    requires SortedBy(xs, key)
    ensures SortedBy(Insert(x, xs, key), key)
  {
    if xs != [] && key(x) > key(xs[0]) {
      var rest := Insert(x, xs[1..], key);
      InsertSorted(x, xs[1..], key);
      forall j | 0 <= j < |rest| ensures key(xs[0]) <= key(rest[j]) {
        InsertElement(x, xs[1..], key, j);
        if rest[j] != x {
          var m :| 0 <= m < |xs[1..]| && xs[1..][m] == rest[j];
          assert xs[m + 1] == rest[j];
        }
      }
    }
  }

  lemma {:induction false} InsertNoDup<T>(x: T, xs: seq<T>, key: T -> real)
    requires x !in xs && NoDup(xs)
    ensures NoDup(Insert(x, xs, key))
  {
    if xs != [] && key(x) > key(xs[0]) {
      var rest := Insert(x, xs[1..], key);
      InsertNoDup(x, xs[1..], key);
      forall j | 0 <= j < |rest| ensures xs[0] != rest[j] {
        assert rest[j] in multiset(rest);
        if rest[j] != x {
          assert rest[j] in multiset(xs[1..]);
        }
      }
      assert Insert(x, xs, key) == [xs[0]] + rest;
    }
  }

  /** Insertion sort: a permutation of xs. */
  function SortBy<T>(xs: seq<T>, key: T -> real): (r: seq<T>)
    ensures |r| == |xs|
    ensures multiset(r) == multiset(xs)
  {
    if xs == [] then []
    else
      assert xs == [xs[0]] + xs[1..];
      Insert(xs[0], SortBy(xs[1..], key), key)
  }

  /** The sort is in ascending order of key, and keeps distinct elements distinct. */
  lemma {:induction false} SortBySorted<T>(xs: seq<T>, key: T -> real)
    ensures SortedBy(SortBy(xs, key), key)
    ensures NoDup(xs) ==> NoDup(SortBy(xs, key))
  {
    if xs != [] {
      var rest := SortBy(xs[1..], key);
      SortBySorted(xs[1..], key);
      InsertSorted(xs[0], rest, key);
      if NoDup(xs) {
        assert NoDup(xs[1..]);
        assert xs[0] !in multiset(xs[1..]);
        InsertNoDup(xs[0], rest, key);
      }
    }
  }
}
