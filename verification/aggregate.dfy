/**
 * The column aggregations that feed the pie and bar charts
 * (EDA/eda_mobile_data.py, lines 83, 95 and 107): `dropna`, `fillna`,
 * `value_counts`, `nlargest`, `groupby(...).mean()`, `sort_values` and
 * `tail`, on columns of a cleaned table.
 */
module Aggregate {
  import opened Wrappers
  import opened Sorting
  import opened Table

  function Min(a: nat, b: nat): nat {
    if a <= b then a else b
  }

  // ----- Columns -----

  function BrandColumn(t: seq<CleanRecord>): seq<Option<string>> {
    seq(|t|, k requires 0 <= k < |t| => t[k].brand)
  }

  function RamColumn(t: seq<CleanRecord>): seq<Option<string>> {
    seq(|t|, k requires 0 <= k < |t| => t[k].ram)
  }

  function PriceColumn(t: seq<CleanRecord>): seq<Option<nat>> {
    seq(|t|, k requires 0 <= k < |t| => t[k].price)
  }

  function RatingColumn(t: seq<CleanRecord>): seq<Option<real>> {
    seq(|t|, k requires 0 <= k < |t| => t[k].rating)
  }

  /** `dropna`: the present values of a column, in row order. */
  function Present<T>(col: seq<Option<T>>): (r: seq<T>)
    ensures |r| <= |col|
    ensures forall i :: 0 <= i < |r| ==> Some(r[i]) in col
    ensures forall k :: 0 <= k < |col| && col[k].Some? ==> col[k].value in r
  {
    if col == [] then []
    else
      var init := Present(col[..|col| - 1]);
      assert forall i :: 0 <= i < |init| ==> Some(init[i]) in col[..|col| - 1];
      var last := col[|col| - 1];
      init + (if last.Some? then [last.value] else [])
  }

  /** Appending x adds one occurrence of x and none of anything else. */
  lemma MultisetSnoc<T>(s: seq<T>, x: T, v: T)
    ensures multiset(s + [x])[v] == multiset(s)[v] + (if x == v then 1 else 0)
  {
    assert multiset(s + [x]) == multiset(s) + multiset{x};
  }

  /** Every present value keeps its number of occurrences; missing cells drop out. */
  lemma PresentCount<T>(col: seq<Option<T>>, v: T)
    ensures multiset(Present(col))[v] == multiset(col)[Some(v)]
    ensures |Present(col)| + multiset(col)[None] == |col|
  {
    PresentTally(col, v);
    PresentLength(col);
  }

  lemma {:induction false} PresentTally<T>(col: seq<Option<T>>, v: T)
    ensures multiset(Present(col))[v] == multiset(col)[Some(v)]
  {
    if col != [] {
      var init, last := col[..|col| - 1], col[|col| - 1];
      PresentTally(init, v);
      assert col == init + [last];
      var p := Present(init);
      MultisetSnoc(init, last, Some(v));
      if last.None? {
        assert Present(col) == p;
      } else {
        assert Present(col) == p + [last.value];
        MultisetSnoc(p, last.value, v);
      }
    }
  }

  lemma {:induction false} PresentLength<T>(col: seq<Option<T>>)
    ensures |Present(col)| + multiset(col)[None] == |col|
  {
    if col != [] {
      var init, last := col[..|col| - 1], col[|col| - 1];
      PresentLength(init);
      assert col == init + [last];
      MultisetSnoc(init, last, None);
      assert |Present(col)| == |Present(init)| + (if last.None? then 0 else 1);
    }
  }

  /** `fillna(d)`: every missing cell replaced by d. */
  function FillNa<T>(col: seq<Option<T>>, d: T): (r: seq<T>)
    ensures |r| == |col|
    ensures forall k :: 0 <= k < |col| ==> r[k] == col[k].GetOr(d)
  {
    if col == [] then []
    else FillNa(col[..|col| - 1], d) + [col[|col| - 1].GetOr(d)]
  }

  /** After `fillna(d)`, d counts its own cells and every missing cell. */
  lemma {:induction false} FillNaCount<T>(col: seq<Option<T>>, d: T, v: T)
    ensures multiset(FillNa(col, d))[v]
      == multiset(col)[Some(v)] + (if v == d then multiset(col)[None] else 0)
  {
    if col != [] {
      var init, last := col[..|col| - 1], col[|col| - 1];
      FillNaCount(init, d, v);
      assert col == init + [last];
      var f := FillNa(init, d);
      assert FillNa(col, d) == f + [last.GetOr(d)];
      MultisetSnoc(f, last.GetOr(d), v);
      MultisetSnoc(init, last, Some(v));
      MultisetSnoc(init, last, None);
      var a, b, c := multiset(f)[v], multiset(init)[Some(v)], multiset(init)[None];
      if last.None? {
        assert multiset(col)[Some(v)] == b && multiset(col)[None] == c + 1;
        assert multiset(FillNa(col, d))[v] == a + (if d == v then 1 else 0);
      } else {
        assert multiset(col)[None] == c;
        assert multiset(col)[Some(v)] == b + (if last.value == v then 1 else 0);
        assert multiset(FillNa(col, d))[v] == a + (if last.value == v then 1 else 0);
      }
    }
  }

  /** The distinct values of xs, in order of first appearance. */
  function Distinct<T(==)>(xs: seq<T>): (r: seq<T>)
    ensures NoDup(r)
    ensures forall i :: 0 <= i < |r| ==> r[i] in xs
    ensures forall k :: 0 <= k < |xs| ==> xs[k] in r
  {
    if xs == [] then []
    else
      var init := Distinct(xs[..|xs| - 1]);
      assert forall i :: 0 <= i < |init| ==> init[i] in xs[..|xs| - 1];
      assert forall k :: 0 <= k < |xs| - 1 ==> xs[k] == xs[..|xs| - 1][k];
      var last := xs[|xs| - 1];
      if last in init then init else init + [last]
  }

  // ----- Counting -----

  /** No key occurs in two entries of ps. */
  ghost predicate DistinctKeys<K, V>(ps: seq<(K, V)>) {
    forall i, j :: 0 <= i < j < |ps| ==> ps[i].0 != ps[j].0
  }

  /** Sorting entries with distinct keys keeps the keys distinct. */
  lemma SortKeepsKeys<K, V>(xs: seq<(K, V)>, key: ((K, V)) -> real)
    requires DistinctKeys(xs)
    ensures SortedBy(SortBy(xs, key), key)
    ensures DistinctKeys(SortBy(xs, key))
  {
    assert NoDup(xs);
    SortBySorted(xs, key);
    var ys := SortBy(xs, key);
    forall i, j | 0 <= i < j < |ys| ensures ys[i].0 != ys[j].0 {
      assert ys[i] in multiset(xs) && ys[j] in multiset(xs);
      var i' :| 0 <= i' < |xs| && xs[i'] == ys[i];
      var j' :| 0 <= j' < |xs| && xs[j'] == ys[j];
      assert i' != j';
    }
  }

  /** Ordering key that puts larger counts first. */
  function NegCount<T>(p: (T, nat)): real {
    -(p.1 as real)
  }

  /** `value_counts()`: each distinct value with its number of occurrences, larger counts first. */
  function ValueCounts<T(==)>(vals: seq<T>): seq<(T, nat)> {
    var keys := Distinct(vals);
    SortBy(seq(|keys|, k requires 0 <= k < |keys| => (keys[k], multiset(vals)[keys[k]])), NegCount)
  }

  /** `nlargest(n)`: the n entries with the largest counts, larger counts first. */
  function NLargest<T(==)>(vc: seq<(T, nat)>, n: nat): seq<(T, nat)> {
    var s := SortBy(vc, NegCount);
    s[..Min(n, |s|)]
  }

  /** `value_counts().nlargest(n)`. */
  function TopCounts<T(==)>(vals: seq<T>, n: nat): seq<(T, nat)> {
    NLargest(ValueCounts(vals), n)
  }

  /** The tally of vals by its distinct values: one entry per value, with its number of occurrences. */
  lemma TallySpec<T>(vals: seq<T>)
    ensures var keys := Distinct(vals);
      var tab := seq(|keys|, k requires 0 <= k < |keys| => (keys[k], multiset(vals)[keys[k]]));
      && DistinctKeys(tab)
      && (forall i :: 0 <= i < |tab| ==> tab[i].1 == multiset(vals)[tab[i].0] >= 1)
      && (forall k :: 0 <= k < |vals| ==> (vals[k], multiset(vals)[vals[k]]) in tab)
  {
    var keys := Distinct(vals);
    var tab := seq(|keys|, k requires 0 <= k < |keys| => (keys[k], multiset(vals)[keys[k]]));
    TallyOfKeys(vals, keys, tab);
  }

  lemma TallyOfKeys<T>(vals: seq<T>, keys: seq<T>, tab: seq<(T, nat)>)
    requires NoDup(keys)
    requires forall i :: 0 <= i < |keys| ==> keys[i] in vals
    requires forall k :: 0 <= k < |vals| ==> vals[k] in keys
    requires |tab| == |keys| && forall i :: 0 <= i < |tab| ==> tab[i] == (keys[i], multiset(vals)[keys[i]])
    ensures DistinctKeys(tab)
    ensures forall i :: 0 <= i < |tab| ==> tab[i].1 == multiset(vals)[tab[i].0] >= 1
    ensures forall k :: 0 <= k < |vals| ==> (vals[k], multiset(vals)[vals[k]]) in tab
  {
    forall i | 0 <= i < |tab| ensures tab[i].1 == multiset(vals)[tab[i].0] >= 1 {
      assert keys[i] in vals;
    }
    forall k | 0 <= k < |vals| ensures (vals[k], multiset(vals)[vals[k]]) in tab {
      var m :| 0 <= m < |keys| && keys[m] == vals[k];
      assert tab[m] == (vals[k], multiset(vals)[vals[k]]);
    }
  }

  lemma ValueCountsSpec<T>(vals: seq<T>)
    ensures DistinctKeys(ValueCounts(vals))
    ensures forall i :: 0 <= i < |ValueCounts(vals)| ==>
      ValueCounts(vals)[i].1 == multiset(vals)[ValueCounts(vals)[i].0] >= 1
    ensures forall k :: 0 <= k < |vals| ==> (vals[k], multiset(vals)[vals[k]]) in ValueCounts(vals)
  {
    var keys := Distinct(vals);
    var tab := seq(|keys|, k requires 0 <= k < |keys| => (keys[k], multiset(vals)[keys[k]]));
    TallySpec(vals);
    var r := SortBy(tab, NegCount);
    assert r == ValueCounts(vals);
    SortKeepsKeys(tab, NegCount);
    forall i | 0 <= i < |r| ensures r[i].1 == multiset(vals)[r[i].0] >= 1 {
      assert r[i] in multiset(tab);
    }
    forall k | 0 <= k < |vals| ensures (vals[k], multiset(vals)[vals[k]]) in r {
      assert (vals[k], multiset(vals)[vals[k]]) in multiset(tab);
    }
  }

  lemma NLargestSpec<T>(vc: seq<(T, nat)>, n: nat)
    requires DistinctKeys(vc)
    ensures |NLargest(vc, n)| == Min(n, |vc|)
    ensures forall i :: 0 <= i < |NLargest(vc, n)| ==> NLargest(vc, n)[i] in vc
    ensures DistinctKeys(NLargest(vc, n))
    ensures forall i, j :: 0 <= i < j < |NLargest(vc, n)| ==> NLargest(vc, n)[i].1 >= NLargest(vc, n)[j].1
    ensures forall p :: p in vc && p !in NLargest(vc, n) ==>
      |NLargest(vc, n)| == n && forall i :: 0 <= i < n ==> p.1 <= NLargest(vc, n)[i].1
  {
    var s := SortBy(vc, NegCount);
    SortKeepsKeys(vc, NegCount);
    var r := s[..Min(n, |s|)];
    assert r == NLargest(vc, n);
    PrefixKeepsKeys(s, r);
    PrefixMembers(vc, s, r);
    PrefixOrdered(s, r);
    PrefixDominates(vc, s, r);
  }

  lemma PrefixKeepsKeys<T>(s: seq<(T, nat)>, r: seq<(T, nat)>)
    requires DistinctKeys(s) && |r| <= |s| && r == s[..|r|]
    ensures DistinctKeys(r)
  {
    forall i, j | 0 <= i < j < |r| ensures r[i].0 != r[j].0 {
      assert r[i] == s[i] && r[j] == s[j];
    }
  }

  lemma PrefixMembers<T>(vc: seq<(T, nat)>, s: seq<(T, nat)>, r: seq<(T, nat)>)
    requires multiset(s) == multiset(vc) && |r| <= |s| && r == s[..|r|]
    ensures forall i :: 0 <= i < |r| ==> r[i] in vc
  {
    forall i | 0 <= i < |r| ensures r[i] in vc {
      assert r[i] == s[i] && s[i] in multiset(vc);
    }
  }

  lemma PrefixOrdered<T>(s: seq<(T, nat)>, r: seq<(T, nat)>)
    requires SortedBy(s, NegCount) && |r| <= |s| && r == s[..|r|]
    ensures forall i, j :: 0 <= i < j < |r| ==> r[i].1 >= r[j].1
  {
    forall i, j | 0 <= i < j < |r| ensures r[i].1 >= r[j].1 {
      assert NegCount(s[i]) <= NegCount(s[j]);
    }
  }

  lemma PrefixDominates<T>(vc: seq<(T, nat)>, s: seq<(T, nat)>, r: seq<(T, nat)>)
    requires multiset(s) == multiset(vc) && SortedBy(s, NegCount) && |r| <= |s| && r == s[..|r|]
    ensures forall p :: p in vc && p !in r ==> |r| < |s| && forall i :: 0 <= i < |r| ==> p.1 <= r[i].1
  {
    forall p | p in vc && p !in r ensures |r| < |s| && forall i :: 0 <= i < |r| ==> p.1 <= r[i].1 {
      assert p in multiset(s);
      assert s == r + s[|r|..];
      assert p in s[|r|..];
      var m :| 0 <= m < |s| - |r| && s[|r|..][m] == p;
      SortedBeyondPrefix(s, r, |r| + m);
    }
  }

  lemma SortedBeyondPrefix<T>(s: seq<(T, nat)>, r: seq<(T, nat)>, m: nat)
    requires SortedBy(s, NegCount) && |r| <= m < |s| && r == s[..|r|]
    ensures forall i :: 0 <= i < |r| ==> s[m].1 <= r[i].1
  {
    forall i | 0 <= i < |r| ensures s[m].1 <= r[i].1 {
      assert r[i] == s[i];
      assert NegCount(s[i]) <= NegCount(s[m]);
    }
  }

  /**
   * r is a top-n table for count: at most n entries, each key with its
   * count (at least 1), counts non-increasing, no key twice; a key with a
   * positive count that is left out is counted no more than any key kept,
   * and is left out only when n were kept.
   */
  ghost predicate IsTopN<T(!new)>(r: seq<(T, nat)>, n: nat, count: T -> nat) {
    && |r| <= n
    && (forall i :: 0 <= i < |r| ==> r[i].1 == count(r[i].0) >= 1)
    && (forall i, j :: 0 <= i < j < |r| ==> r[i].1 >= r[j].1)
    && DistinctKeys(r)
    && (forall v :: count(v) >= 1 && (forall i :: 0 <= i < |r| ==> r[i].0 != v) ==>
          |r| == n && forall i :: 0 <= i < n ==> count(v) <= r[i].1)
  }

  /** A top-n table for one count is one for any count that agrees with it everywhere. */
  lemma IsTopNSameCount<T(!new)>(r: seq<(T, nat)>, n: nat, c1: T -> nat, c2: T -> nat)
    requires IsTopN(r, n, c1)
    requires forall v :: c1(v) == c2(v)
    ensures IsTopN(r, n, c2)
  {
  }

  lemma TallyEntry<T>(vals: seq<T>, vc: seq<(T, nat)>, p: (T, nat))
    requires forall i :: 0 <= i < |vc| ==> vc[i].1 == multiset(vals)[vc[i].0] >= 1
    requires p in vc
    ensures p.1 == multiset(vals)[p.0] >= 1
  {
    var m :| 0 <= m < |vc| && vc[m] == p;
  }

  /** NLargest of any tally of vals is a top-n table for the occurrence count. */
  lemma NLargestOfTally<T(!new)>(vals: seq<T>, vc: seq<(T, nat)>, n: nat)
    requires DistinctKeys(vc)
    requires forall i :: 0 <= i < |vc| ==> vc[i].1 == multiset(vals)[vc[i].0] >= 1
    requires forall k :: 0 <= k < |vals| ==> (vals[k], multiset(vals)[vals[k]]) in vc
    ensures IsTopN(NLargest(vc, n), n, v => multiset(vals)[v])
  {
    NLargestSpec(vc, n);
    TopOfTally(vals, vc, NLargest(vc, n), n);
  }

  /** A prefix of a tally that keeps the largest counts is a top-n table. */
  lemma TopOfTally<T(!new)>(vals: seq<T>, vc: seq<(T, nat)>, r: seq<(T, nat)>, n: nat)
    requires forall i :: 0 <= i < |vc| ==> vc[i].1 == multiset(vals)[vc[i].0] >= 1
    requires forall k :: 0 <= k < |vals| ==> (vals[k], multiset(vals)[vals[k]]) in vc
    requires |r| <= n && DistinctKeys(r)
    requires forall i :: 0 <= i < |r| ==> r[i] in vc
    requires forall i, j :: 0 <= i < j < |r| ==> r[i].1 >= r[j].1
    requires forall p :: p in vc && p !in r ==> |r| == n && forall i :: 0 <= i < n ==> p.1 <= r[i].1
    ensures IsTopN(r, n, v => multiset(vals)[v])
  {
    forall i | 0 <= i < |r| ensures r[i].1 == multiset(vals)[r[i].0] >= 1 {
      TallyEntry(vals, vc, r[i]);
    }
    forall v | multiset(vals)[v] >= 1 && (forall i :: 0 <= i < |r| ==> r[i].0 != v)
      ensures |r| == n && forall i :: 0 <= i < n ==> multiset(vals)[v] <= r[i].1
    {
      assert v in multiset(vals);
      var k :| 0 <= k < |vals| && vals[k] == v;
      var p := (v, multiset(vals)[v]);
      assert p in vc;
      assert p !in r;
    }
  }

  /** `value_counts().nlargest(n)` is a top-n table for the number of occurrences in vals. */
  lemma TopCountsSpec<T(!new)>(vals: seq<T>, n: nat)
    ensures IsTopN(TopCounts(vals, n), n, v => multiset(vals)[v])
  {
    ValueCountsSpec(vals);
    NLargestOfTally(vals, ValueCounts(vals), n);
  }

  /** The same top-n table, for any count that agrees with the number of occurrences. */
  lemma TopCountsOf<T(!new)>(vals: seq<T>, n: nat, count: T -> nat)
    requires forall v :: multiset(vals)[v] == count(v)
    ensures IsTopN(TopCounts(vals, n), n, count)
  {
    TopCountsSpec(vals, n);
    IsTopNSameCount(TopCounts(vals, n), n, v => multiset(vals)[v], count);
  }

  /** Line 83: `df["Brand"].value_counts().nlargest(6)`; missing brands are not counted. */
  function BrandCounts(t: seq<CleanRecord>): seq<(string, nat)> {
    TopCounts(Present(BrandColumn(t)), 6)
  }

  /** Line 95: `df["RAM"].fillna("Unknown").value_counts().nlargest(6)`. */
  function RamCounts(t: seq<CleanRecord>): seq<(string, nat)> {
    TopCounts(FillNa(RamColumn(t), "Unknown"), 6)
  }

  /** The six most frequent brands, each with the number of rows of that brand. */
  lemma BrandCountsSpec(t: seq<CleanRecord>)
    ensures IsTopN(BrandCounts(t), 6, b => multiset(BrandColumn(t))[Some(b)])
  {
    var col := BrandColumn(t);
    forall v ensures multiset(Present(col))[v] == multiset(col)[Some(v)] {
      PresentCount(col, v);
    }
    TopCountsOf(Present(col), 6, b => multiset(col)[Some(b)]);
  }

  /** The number of rows counted under a RAM label once missing RAM reads "Unknown". */
  ghost function RamTally(t: seq<CleanRecord>, v: string): nat {
    multiset(RamColumn(t))[Some(v)] + (if v == "Unknown" then multiset(RamColumn(t))[None] else 0)
  }

  /** The six most frequent RAM labels, missing RAM counted under "Unknown". */
  lemma RamCountsSpec(t: seq<CleanRecord>)
    ensures IsTopN(RamCounts(t), 6, v => RamTally(t, v))
  {
    var col := RamColumn(t);
    forall v ensures multiset(FillNa(col, "Unknown"))[v] == RamTally(t, v) {
      FillNaCount(col, "Unknown", v);
    }
    TopCountsOf(FillNa(col, "Unknown"), 6, v => RamTally(t, v));
  }

  /** On a cleaned table no RAM cell reads "Unknown", so that label counts exactly the rows without RAM. */
  lemma UnknownIsMissingRam(raw: seq<RawRecord>)
    ensures RamTally(CleanAll(raw), "Unknown") == multiset(RamColumn(CleanAll(raw)))[None]
  {
    var col := RamColumn(CleanAll(raw));
    forall k | 0 <= k < |col| ensures col[k] != Some("Unknown") {
      RamIsNeverUnknown(raw[k]);
    }
    assert Some("Unknown") !in col;
  }

  // ----- Mean price per brand -----

  function Sum(xs: seq<nat>): nat {
    if xs == [] then 0 else Sum(xs[..|xs| - 1]) + xs[|xs| - 1]
  }

  /** `mean()` of the present values of a group: missing (NaN) when there are none. */
  function Average(xs: seq<nat>): Option<real> {
    if xs == [] then None else Some(Sum(xs) as real / |xs| as real)
  }

  /** The smallest value, missing on an empty column. */
  function Minimum(xs: seq<nat>): (m: Option<nat>)
    ensures m.None? <==> xs == []
    ensures m.Some? ==> m.value in xs && forall i :: 0 <= i < |xs| ==> m.value <= xs[i]
  {
    if xs == [] then None
    else
      var rest := Minimum(xs[1..]);
      if rest.None? || xs[0] <= rest.value then Some(xs[0]) else rest
  }

  /** The largest value, missing on an empty column. */
  function Maximum(xs: seq<nat>): (m: Option<nat>)
    ensures m.None? <==> xs == []
    ensures m.Some? ==> m.value in xs && forall i :: 0 <= i < |xs| ==> xs[i] <= m.value
  {
    if xs == [] then None
    else
      var rest := Maximum(xs[1..]);
      if rest.None? || xs[0] >= rest.value then Some(xs[0]) else rest
  }

  lemma {:induction false} SumBounds(xs: seq<nat>, lo: nat, hi: nat)
    requires forall i :: 0 <= i < |xs| ==> lo <= xs[i] <= hi
    ensures |xs| * lo <= Sum(xs) <= |xs| * hi
  {
    if xs != [] {
      var n := |xs| - 1;
      SumBounds(xs[..n], lo, hi);
      assert |xs| * lo == n * lo + lo && |xs| * hi == n * hi + hi;
    }
  }

  /** Dividing a sum of n values in [lo, hi] by n lands in [lo, hi]. */
  lemma RatioWithin(sum: nat, n: nat, lo: nat, hi: nat)
    requires n > 0 && n * lo <= sum <= n * hi
    ensures lo as real <= sum as real / n as real <= hi as real
  {
    var m := n as real;
    assert (n * lo) as real == m * lo as real;
    assert (n * hi) as real == m * hi as real;
    BelowQuotient(lo as real, sum as real, m);
    AboveQuotient(hi as real, sum as real, m);
  }

  lemma BelowQuotient(x: real, y: real, m: real)
    requires m > 0.0 && m * x <= y
    ensures x <= y / m
  {
    assert y / m - x == (y - m * x) / m;
  }

  lemma AboveQuotient(x: real, y: real, m: real)
    requires m > 0.0 && y <= m * x
    ensures y / m <= x
  {
    assert x - y / m == (m * x - y) / m;
  }

  /** A mean lies between the smallest and the largest value averaged. */
  lemma AverageWithin(xs: seq<nat>)
    requires xs != []
    ensures Minimum(xs).value as real <= Average(xs).value <= Maximum(xs).value as real
  {
    var lo, hi := Minimum(xs).value, Maximum(xs).value;
    SumBounds(xs, lo, hi);
    RatioWithin(Sum(xs), |xs|, lo, hi);
  }

  /** The present prices of the rows of brand b. */
  function BrandPrices(t: seq<CleanRecord>, b: string): seq<nat> {
    Present(seq(|t|, k requires 0 <= k < |t| => if t[k].brand == Some(b) then t[k].price else None))
  }

  /** `groupby("Brand")["Price (INR)"].mean()`: one entry per present brand. */
  function GroupMeans(t: seq<CleanRecord>): seq<(string, Option<real>)> {
    var brands := Distinct(Present(BrandColumn(t)));
    seq(|brands|, k requires 0 <= k < |brands| => (brands[k], Average(BrandPrices(t, brands[k]))))
  }

  /** `dropna()` on a series: the entries with a value, in order. */
  function DropMissing(ps: seq<(string, Option<real>)>): (r: seq<(string, real)>)
    ensures forall i :: 0 <= i < |r| ==> (r[i].0, Some(r[i].1)) in ps
    ensures forall k :: 0 <= k < |ps| && ps[k].1.Some? ==> (ps[k].0, ps[k].1.value) in r
    ensures DistinctKeys(ps) ==> DistinctKeys(r)
  {
    if ps == [] then []
    else
      var init := DropMissing(ps[..|ps| - 1]);
      var last := ps[|ps| - 1];
      assert forall i :: 0 <= i < |init| ==> (init[i].0, Some(init[i].1)) in ps[..|ps| - 1];
      assert forall k :: 0 <= k < |ps| - 1 ==> ps[k] == ps[..|ps| - 1][k];
      if last.1.Some? then
        assert DistinctKeys(ps) ==> forall i :: 0 <= i < |init| ==> init[i].0 != last.0;
        init + [(last.0, last.1.value)]
      else init
  }

  function MeanKey(p: (string, real)): real {
    p.1
  }

  /** `sort_values().tail(n)`: the n entries with the largest values, in ascending order. */
  function SortedTail(d: seq<(string, real)>, n: nat): seq<(string, real)> {
    var s := SortBy(d, MeanKey);
    s[|s| - Min(n, |s|)..]
  }

  lemma SortedTailSpec(d: seq<(string, real)>, n: nat)
    requires DistinctKeys(d)
    ensures |SortedTail(d, n)| == Min(n, |d|)
    ensures forall i :: 0 <= i < |SortedTail(d, n)| ==> SortedTail(d, n)[i] in d
    ensures forall i, j :: 0 <= i < j < |SortedTail(d, n)| ==> SortedTail(d, n)[i].1 <= SortedTail(d, n)[j].1
    ensures DistinctKeys(SortedTail(d, n))
    ensures forall p :: p in d && p !in SortedTail(d, n) ==>
      |SortedTail(d, n)| == n && forall i :: 0 <= i < n ==> p.1 <= SortedTail(d, n)[i].1
  {
    var s := SortBy(d, MeanKey);
    SortKeepsKeys(d, MeanKey);
    var start := |s| - Min(n, |s|);
    var r := s[start..];
    assert r == SortedTail(d, n);
    SuffixKeepsKeys(s, r, start);
    SuffixMembers(d, s, r, start);
    SuffixOrdered(s, r, start);
    SuffixDominated(d, s, r, start);
  }

  lemma SuffixKeepsKeys(s: seq<(string, real)>, r: seq<(string, real)>, start: nat)
    requires DistinctKeys(s) && start <= |s| && r == s[start..]
    ensures DistinctKeys(r)
  {
    forall i, j | 0 <= i < j < |r| ensures r[i].0 != r[j].0 {
      assert r[i] == s[start + i] && r[j] == s[start + j];
    }
  }

  lemma SuffixMembers(d: seq<(string, real)>, s: seq<(string, real)>, r: seq<(string, real)>, start: nat)
    requires multiset(s) == multiset(d) && start <= |s| && r == s[start..]
    ensures forall i :: 0 <= i < |r| ==> r[i] in d
  {
    forall i | 0 <= i < |r| ensures r[i] in d {
      assert r[i] == s[start + i] && s[start + i] in multiset(d);
    }
  }

  lemma SuffixOrdered(s: seq<(string, real)>, r: seq<(string, real)>, start: nat)
    requires SortedBy(s, MeanKey) && start <= |s| && r == s[start..]
    ensures forall i, j :: 0 <= i < j < |r| ==> r[i].1 <= r[j].1
  {
    forall i, j | 0 <= i < j < |r| ensures r[i].1 <= r[j].1 {
      assert MeanKey(s[start + i]) <= MeanKey(s[start + j]);
    }
  }

  lemma SuffixDominated(d: seq<(string, real)>, s: seq<(string, real)>, r: seq<(string, real)>, start: nat)
    requires multiset(s) == multiset(d) && SortedBy(s, MeanKey) && start <= |s| && r == s[start..]
    ensures forall p :: p in d && p !in r ==> start > 0 && forall i :: 0 <= i < |r| ==> p.1 <= r[i].1
  {
    forall p | p in d && p !in r ensures start > 0 && forall i :: 0 <= i < |r| ==> p.1 <= r[i].1 {
      assert p in multiset(s);
      assert s == s[..start] + r;
      assert p in s[..start];
      var m :| 0 <= m < start && s[..start][m] == p;
      SortedBeforeSuffix(s, r, start, m);
    }
  }

  lemma SortedBeforeSuffix(s: seq<(string, real)>, r: seq<(string, real)>, start: nat, m: nat)
    requires SortedBy(s, MeanKey) && m < start <= |s| && r == s[start..]
    ensures forall i :: 0 <= i < |r| ==> s[m].1 <= r[i].1
  {
    forall i | 0 <= i < |r| ensures s[m].1 <= r[i].1 {
      assert r[i] == s[start + i];
      assert MeanKey(s[m]) <= MeanKey(s[start + i]);
    }
  }

  /** Line 107: `groupby("Brand")["Price (INR)"].mean().dropna().sort_values().tail(10)`. */
  function MeanPriceByBrand(t: seq<CleanRecord>): seq<(string, real)> {
    SortedTail(DropMissing(GroupMeans(t)), 10)
  }

  /** A brand with a present price is among the groups. */
  lemma PricedBrandIsGrouped(t: seq<CleanRecord>, b: string)
    requires BrandPrices(t, b) != []
    ensures (b, Average(BrandPrices(t, b))) in GroupMeans(t)
  {
    var col := seq(|t|, k requires 0 <= k < |t| => if t[k].brand == Some(b) then t[k].price else None);
    assert Some(BrandPrices(t, b)[0]) in col;
    var k :| 0 <= k < |t| && col[k] == Some(BrandPrices(t, b)[0]);
    assert BrandColumn(t)[k] == Some(b);
    var brands := Distinct(Present(BrandColumn(t)));
    var m :| 0 <= m < |brands| && brands[m] == b;
    assert GroupMeans(t)[m] == (b, Average(BrandPrices(t, b)));
  }

  /** The brands with a mean, each once and with its own mean. */
  lemma GroupMeansSpec(t: seq<CleanRecord>)
    ensures DistinctKeys(DropMissing(GroupMeans(t)))
    ensures forall i :: 0 <= i < |DropMissing(GroupMeans(t))| ==>
      Average(BrandPrices(t, DropMissing(GroupMeans(t))[i].0)) == Some(DropMissing(GroupMeans(t))[i].1)
    ensures forall b :: Average(BrandPrices(t, b)).Some? ==>
      (b, Average(BrandPrices(t, b)).value) in DropMissing(GroupMeans(t))
  {
    var g := GroupMeans(t);
    var brands := Distinct(Present(BrandColumn(t)));
    assert DistinctKeys(g) by {
      forall i, j | 0 <= i < j < |g| ensures g[i].0 != g[j].0 {
        assert g[i].0 == brands[i] && g[j].0 == brands[j];
      }
    }
    var d := DropMissing(g);
    forall i | 0 <= i < |d| ensures Average(BrandPrices(t, d[i].0)) == Some(d[i].1) {
      var m :| 0 <= m < |g| && g[m] == (d[i].0, Some(d[i].1));
      assert g[m] == (brands[m], Average(BrandPrices(t, brands[m])));
    }
    forall b | Average(BrandPrices(t, b)).Some? ensures (b, Average(BrandPrices(t, b)).value) in d {
      PricedBrandIsGrouped(t, b);
      var m :| 0 <= m < |g| && g[m] == (b, Average(BrandPrices(t, b)));
    }
  }

  /**
   * r lists at most n brands in ascending order of mean, each once and
   * with its mean; a brand with a mean that is left out has a mean no
   * higher than any kept, and is left out only when n were kept.
   */
  ghost predicate IsTopMeans(r: seq<(string, real)>, n: nat, mean: string -> Option<real>) {
    && |r| <= n
    && (forall i, j :: 0 <= i < j < |r| ==> r[i].1 <= r[j].1)
    && DistinctKeys(r)
    && (forall i :: 0 <= i < |r| ==> mean(r[i].0) == Some(r[i].1))
    && (forall b :: mean(b).Some? && (forall i :: 0 <= i < |r| ==> r[i].0 != b) ==>
          |r| == n && forall i :: 0 <= i < n ==> mean(b).value <= r[i].1)
  }

  /** The tail of any table of means with distinct keys is a top-n table of those means. */
  lemma SortedTailOfMeans(d: seq<(string, real)>, n: nat, mean: string -> Option<real>)
    requires DistinctKeys(d)
    requires forall i :: 0 <= i < |d| ==> mean(d[i].0) == Some(d[i].1)
    requires forall b :: mean(b).Some? ==> (b, mean(b).value) in d
    ensures IsTopMeans(SortedTail(d, n), n, mean)
  {
    SortedTailSpec(d, n);
    var r := SortedTail(d, n);
    forall i | 0 <= i < |r| ensures mean(r[i].0) == Some(r[i].1) {
      var m :| 0 <= m < |d| && d[m] == r[i];
    }
    forall b | mean(b).Some? && (forall i :: 0 <= i < |r| ==> r[i].0 != b)
      ensures |r| == n && forall i :: 0 <= i < n ==> mean(b).value <= r[i].1
    {
      var p := (b, mean(b).value);
      assert p in d;
      assert p !in r;
    }
  }

  /**
   * Line 107: the ten brands with the highest mean present price, in
   * ascending order of that mean; a brand whose prices are all missing has
   * no mean and is absent.
   */
  lemma MeanPriceByBrandSpec(t: seq<CleanRecord>)
    ensures IsTopMeans(MeanPriceByBrand(t), 10, b => Average(BrandPrices(t, b)))
  {
    GroupMeansSpec(t);
    SortedTailOfMeans(DropMissing(GroupMeans(t)), 10, b => Average(BrandPrices(t, b)));
  }
}
