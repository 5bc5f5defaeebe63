/**
 * The summary page's statistics (EDA/eda_mobile_data.py, lines 151-158):
 * row count, distinct brands, minimum, median and maximum price over the
 * present prices, and the number of present ratings.
 */
module Summary {
  import opened Wrappers
  import opened Sorting
  import opened Table
  import opened Aggregate

  datatype Stats = Stats(
    totalProducts: nat,        // df.shape[0]
    uniqueBrands: nat,         // df['Brand'].nunique()
    minPrice: Option<nat>,     // df['Price (INR)'].min(), NaN when no price is present
    medianPrice: Option<real>, // df['Price (INR)'].median()
    maxPrice: Option<nat>,     // df['Price (INR)'].max()
    ratingsAvailable: nat)     // df['Rating'].notnull().sum()

  function NatKey(x: nat): real {
    x as real
  }

  /**
   * `median()`: the middle of the sorted values, or the mean of the two
   * middle values when their number is even; missing when there are none.
   */
  function Median(xs: seq<nat>): Option<real> {
    if xs == [] then None
    else
      var s := SortBy(xs, NatKey);
      var h := |s| / 2;
      if |s| % 2 == 1 then Some(s[h] as real)
      else Some((s[h - 1] + s[h]) as real / 2.0)
  }

  /**
   * m splits xs in halves: some ordering of xs has its first ceil(n/2)
   * values at most m and its last ceil(n/2) values at least m.
   */
  ghost predicate SplitsInHalves(xs: seq<nat>, m: real) {
    exists s: seq<nat> :: multiset(s) == multiset(xs) && |s| == |xs| &&
      (forall i :: 0 <= i < (|s| + 1) / 2 ==> s[i] as real <= m) &&
      (forall i :: |s| / 2 <= i < |s| ==> m <= s[i] as real)
  }

  /** The median is present exactly when a price is, and splits the prices in halves. */
  lemma MedianSplits(xs: seq<nat>)
    ensures Median(xs).None? <==> xs == []
    ensures Median(xs).Some? ==> SplitsInHalves(xs, Median(xs).value)
  {
    if xs != [] {
      var s := SortBy(xs, NatKey);
      SortBySorted(xs, NatKey);
      var h := |s| / 2;
      var m := Median(xs).value;
      forall i | 0 <= i < (|s| + 1) / 2 ensures s[i] as real <= m {
        if |s| % 2 == 0 {
          assert NatKey(s[i]) <= NatKey(s[h - 1]) || i == h - 1;
          assert NatKey(s[h - 1]) <= NatKey(s[h]);
        } else {
          assert NatKey(s[i]) <= NatKey(s[h]) || i == h;
        }
      }
      forall i | h <= i < |s| ensures m <= s[i] as real {
        assert NatKey(s[h]) <= NatKey(s[i]) || i == h;
        if |s| % 2 == 0 {
          assert NatKey(s[h - 1]) <= NatKey(s[h]);
        }
      }
    }
  }

  /**
   * The median read off any ascending ordering of the prices: the middle
   * value, or the mean of the two middle values when their number is even.
   * It does not depend on how the sort orders equal prices.
   */
  lemma MedianOfSorted(xs: seq<nat>, s: seq<nat>)
    requires xs != [] && SortedBy(s, NatKey) && multiset(s) == multiset(xs)
    ensures |s| == |xs|
    ensures |s| % 2 == 1 ==> Median(xs) == Some(s[|s| / 2] as real)
    ensures |s| % 2 == 0 ==> Median(xs) == Some((s[|s| / 2 - 1] + s[|s| / 2]) as real / 2.0)
  {
    assert |s| == |multiset(s)| == |multiset(xs)| == |xs|;
    SortBySorted(xs, NatKey);
    SortedUnique(SortBy(xs, NatKey), s);
  }

  /** Two ascending orderings of the same values are the same sequence. */
  lemma {:induction false} SortedUnique(a: seq<nat>, b: seq<nat>)
    requires SortedBy(a, NatKey) && SortedBy(b, NatKey) && multiset(a) == multiset(b)
    ensures a == b
    decreases |a|
  {
    if a != [] {
      SameFirst(a, b);
      SortedUnique(a[1..], b[1..]);
      assert a == [a[0]] + a[1..] && b == [b[0]] + b[1..];
    } else {
      assert |b| == |multiset(b)| == 0;
    }
  }

  /** Two ascending orderings of the same values start alike and go on with the same values. */
  lemma SameFirst(a: seq<nat>, b: seq<nat>)
    requires a != [] && SortedBy(a, NatKey) && SortedBy(b, NatKey) && multiset(a) == multiset(b)
    ensures b != [] && a[0] == b[0]
    ensures SortedBy(a[1..], NatKey) && SortedBy(b[1..], NatKey) && multiset(a[1..]) == multiset(b[1..])
  {
    assert |b| == |multiset(b)| == |multiset(a)| == |a|;
    FirstIsLeast(a, b[0]);
    FirstIsLeast(b, a[0]);
    var x := a[0];
    DropFirstMultiset(a);
    DropFirstMultiset(b);
    assert multiset(a[1..]) == multiset(a) - multiset{x} == multiset(b) - multiset{x} == multiset(b[1..]);
    SortedDropFirst(a);
    SortedDropFirst(b);
  }

  /** The first value of an ascending ordering is no larger than any of its values. */
  lemma FirstIsLeast(a: seq<nat>, x: nat)
    requires SortedBy(a, NatKey) && x in multiset(a)
    ensures a[0] <= x
  {
    var i :| 0 <= i < |a| && a[i] == x;
    assert NatKey(a[0]) <= NatKey(a[i]) || i == 0;
  }

  lemma DropFirstMultiset(a: seq<nat>)
    requires a != []
    ensures multiset(a[1..]) == multiset(a) - multiset{a[0]}
  {
    assert a == [a[0]] + a[1..];
    assert multiset(a) == multiset{a[0]} + multiset(a[1..]);
  }

  lemma SortedDropFirst(a: seq<nat>)
    requires a != [] && SortedBy(a, NatKey)
    ensures SortedBy(a[1..], NatKey)
  {
    forall i, j | 0 <= i < j < |a| - 1 ensures NatKey(a[1..][i]) <= NatKey(a[1..][j]) {
      assert a[1..][i] == a[i + 1] && a[1..][j] == a[j + 1];
    }
  }

  /** The median lies between the minimum and the maximum. */
  lemma MedianWithin(xs: seq<nat>)
    requires xs != []
    ensures Minimum(xs).value as real <= Median(xs).value <= Maximum(xs).value as real
  {
    var s := SortBy(xs, NatKey);
    var h := |s| / 2;
    var lo, hi := Minimum(xs).value, Maximum(xs).value;
    assert lo <= s[h] <= hi by {
      assert s[h] in multiset(xs);
      var a :| 0 <= a < |xs| && xs[a] == s[h];
    }
    if |s| % 2 == 1 {
      assert Median(xs).value == s[h] as real;
    } else {
      assert lo <= s[h - 1] <= hi by {
        assert s[h - 1] in multiset(xs);
        var a :| 0 <= a < |xs| && xs[a] == s[h - 1];
      }
      var sum := s[h - 1] + s[h];
      assert 2 * lo <= sum <= 2 * hi;
      assert Median(xs).value == sum as real / 2.0;
    }
  }

  /** The distinct present brands. */
  ghost function BrandSet(t: seq<CleanRecord>): set<string> {
    set k | 0 <= k < |t| && t[k].brand.Some? :: t[k].brand.value
  }

  /** Lines 151-158. */
  function Summarize(t: seq<CleanRecord>): Stats {
    var prices := Present(PriceColumn(t));
    Stats(
      |t|,
      |Distinct(Present(BrandColumn(t)))|,
      Minimum(prices),
      Median(prices),
      Maximum(prices),
      |Present(RatingColumn(t))|)
  }

  lemma {:induction false} NoDupCard<T>(r: seq<T>)
    requires NoDup(r)
    ensures |set x | x in r| == |r|
  {
    if r != [] {
      var init := r[..|r| - 1];
      NoDupCard(init);
      assert (set x | x in r) == (set x | x in init) + {r[|r| - 1]};
    }
  }

  /** "Unique Brands" counts the distinct present brands; "Ratings Available" the present ratings. */
  lemma SummaryCounts(t: seq<CleanRecord>)
    ensures Summarize(t).totalProducts == |t|
    ensures Summarize(t).uniqueBrands == |BrandSet(t)|
    ensures Summarize(t).ratingsAvailable + multiset(RatingColumn(t))[None] == |t|
  {
    var col := BrandColumn(t);
    var ds := Distinct(Present(col));
    NoDupCard(ds);
    assert (set x | x in ds) == BrandSet(t) by {
      forall x | x in ds ensures x in BrandSet(t) {
        var i :| 0 <= i < |ds| && ds[i] == x;
        var k :| 0 <= k < |col| && col[k] == Some(x);
      }
      forall x | x in BrandSet(t) ensures x in ds {
        var k :| 0 <= k < |t| && t[k].brand == Some(x);
        assert col[k] == Some(x);
      }
    }
    PresentCount(RatingColumn(t), 0.0);
  }

  /**
   * Min, median and max skip missing prices: all three are missing exactly
   * when no price is present, and otherwise min <= median <= max.
   */
  lemma SummaryPrices(t: seq<CleanRecord>)
    ensures Summarize(t).minPrice.None? <==> forall k :: 0 <= k < |t| ==> t[k].price.None?
    ensures Summarize(t).medianPrice.None? <==> Summarize(t).minPrice.None?
    ensures Summarize(t).maxPrice.None? <==> Summarize(t).minPrice.None?
    ensures Summarize(t).minPrice.Some? ==>
      Summarize(t).minPrice.value as real <= Summarize(t).medianPrice.value <= Summarize(t).maxPrice.value as real
  {
    var col := PriceColumn(t);
    var prices := Present(col);
    MedianSplits(prices);
    if prices == [] {
      forall k | 0 <= k < |t| ensures t[k].price.None? {
        assert col[k] == t[k].price;
      }
    } else {
      assert Some(prices[0]) in col;
      MedianWithin(prices);
    }
  }

  /** The minimum and maximum are prices of some rows and bound every present price. */
  lemma SummaryPriceRange(t: seq<CleanRecord>)
    requires Summarize(t).minPrice.Some?
    ensures exists k :: 0 <= k < |t| && t[k].price == Summarize(t).minPrice
    ensures exists k :: 0 <= k < |t| && t[k].price == Summarize(t).maxPrice
    ensures forall k :: 0 <= k < |t| && t[k].price.Some? ==>
      Summarize(t).minPrice.value <= t[k].price.value <= Summarize(t).maxPrice.value
  {
    var col := PriceColumn(t);
    var prices := Present(col);
    var lo, hi := Minimum(prices).value, Maximum(prices).value;
    assert Summarize(t).minPrice == Some(lo) && Summarize(t).maxPrice == Some(hi);
    var i :| 0 <= i < |prices| && prices[i] == lo;
    var j :| 0 <= j < |prices| && prices[j] == hi;
    assert Some(lo) in col && Some(hi) in col;
    var ki :| 0 <= ki < |col| && col[ki] == Some(lo);
    var kj :| 0 <= kj < |col| && col[kj] == Some(hi);
    assert t[ki].price == Some(lo) && t[kj].price == Some(hi);
    forall k | 0 <= k < |t| && t[k].price.Some? ensures lo <= t[k].price.value <= hi {
      assert col[k] == t[k].price;
    }
  }

  /** A three-row table: prices [10000, missing, 20000], ratings [4.0, 4.5, missing], brands A, B, A. */
  const ThreeRows: seq<CleanRecord> := [
    CleanRecord(Some("A 1"), Some(10000), Some(4.0), None, Some("A"), None),
    CleanRecord(Some("B 2"), None, Some(4.5), None, Some("B"), None),
    CleanRecord(Some("A 3"), Some(20000), None, None, Some("A"), None)]

  lemma ThreeRowsPrices()
    ensures Present(PriceColumn(ThreeRows)) == [10000, 20000]
  {
    var c: seq<Option<nat>> := [Some(10000), None, Some(20000)];
    assert PriceColumn(ThreeRows) == c;
    assert c[..2] == [Some(10000), None];
    assert c[..2][..1] == [Some(10000)];
    assert c[..2][..1][..0] == [];
  }

  lemma ThreeRowsBrands()
    ensures Distinct(Present(BrandColumn(ThreeRows))) == ["A", "B"]
  {
    ThreeRowsBrandColumn();
    DistinctOfTwoBrands();
  }

  lemma ThreeRowsBrandColumn()
    ensures Present(BrandColumn(ThreeRows)) == ["A", "B", "A"]
  {
    var a, b := "A", "B";
    var c := [Some(a), Some(b), Some(a)];
    assert BrandColumn(ThreeRows) == c;
    assert c[..2] == [Some(a), Some(b)];
    assert c[..2][..1] == [Some(a)];
    assert c[..2][..1][..0] == [];
    assert Present(c[..2][..1]) == [a];
    assert Present(c[..2]) == [a, b];
  }

  lemma DistinctOfTwoBrands()
    ensures Distinct(["A", "B", "A"]) == ["A", "B"]
  {
    var a, b := "A", "B";
    var xs := [a, b, a];
    assert a != b by { assert a[0] != b[0]; }
    assert xs[..2] == [a, b];
    assert xs[..2][..1] == [a];
    assert xs[..2][..1][..0] == [];
    assert Distinct(xs[..2][..1]) == [a];
    assert Distinct(xs[..2]) == [a, b];
  }

  lemma ThreeRowsRatings()
    ensures |Present(RatingColumn(ThreeRows))| == 2
  {
    var c: seq<Option<real>> := [Some(4.0), Some(4.5), None];
    assert RatingColumn(ThreeRows) == c;
    assert c[..2] == [Some(4.0), Some(4.5)];
    assert c[..2][..1] == [Some(4.0)];
    assert c[..2][..1][..0] == [];
  }

  /** The median of two values is their mean: 15000 for 10000 and 20000. */
  lemma MedianOfTwo()
    ensures Median([10000, 20000]) == Some(15000.0)
  {
    var ps: seq<nat> := [10000, 20000];
    assert ps[1..] == [20000];
    assert SortBy(ps, NatKey) == ps;
  }

  /** The summary of ThreeRows: 3 products, 2 brands, prices 10000 / 15000 / 20000, 2 ratings. */
  lemma SummaryOfThreeRows()
    ensures Summarize(ThreeRows) == Stats(3, 2, Some(10000), Some(15000.0), Some(20000), 2)
  {
    ThreeRowsPrices();
    ThreeRowsBrands();
    ThreeRowsRatings();
    MedianOfTwo();
    ExtremesOfTwo();
  }

  lemma ExtremesOfTwo()
    ensures Minimum([10000, 20000]) == Some(10000) && Maximum([10000, 20000]) == Some(20000)
  {
    var ps: seq<nat> := [10000, 20000];
    assert ps[1..] == [20000];
  }
}
