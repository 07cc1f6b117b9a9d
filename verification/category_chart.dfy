/** The bar chart of products per category: it draws a copy of the chart
    data sorted by count, largest first. */
module CategoryChart {
  import opened Collections
  import opened Sorting
  import opened MockData
  import opened ProductContext

  /** `(a, b) => b.count - a.count` as the relation "returns a value `<= 0`". */
  predicate CountNotGreater(a: CategoryCount, b: CategoryCount)
  {
    b.count <= a.count
  }

  function ByCountDescending(): (CategoryCount, CategoryCount) -> bool
  {
    (a: CategoryCount, b: CategoryCount) => CountNotGreater(a, b)
  }

  lemma ByCountDescendingIsTotalPreorder()
    ensures TotalPreorder(ByCountDescending())
  {
  }

  /** `sortedData`: `[...categoryData].sort(...)`. */
  function SortedData(data: seq<CategoryCount>): (r: seq<CategoryCount>)
    ensures |r| == |data|
  {
    SortBy(data, ByCountDescending())
  }

  /** The bars are the chart data's entries, each exactly once, with counts
      never increasing from left to right. */
  lemma {:induction false} SortedDataOrdered(data: seq<CategoryCount>)
    ensures multiset(SortedData(data)) == multiset(data)
    ensures forall i, j :: 0 <= i < j < |data| ==> SortedData(data)[j].count <= SortedData(data)[i].count
  {
    SortByPermutes(data, ByCountDescending());
    ByCountDescendingIsTotalPreorder();
    SortBySorted(data, ByCountDescending());
    var r := SortedData(data);
    assert forall i, j :: 0 <= i < j < |r| ==> CountNotGreater(r[i], r[j]);
  }

  function WithCount(n: nat): CategoryCount -> bool
  {
    (c: CategoryCount) => c.count == n
  }

  /** Categories with equal counts keep the order they have in the chart data. */
  lemma {:induction false} SortedDataStable(data: seq<CategoryCount>, n: nat)
    ensures Filter(SortedData(data), WithCount(n)) == Filter(data, WithCount(n))
  {
    var le := ByCountDescending();
    var k := CategoryCount("", n);
    ByCountDescendingIsTotalPreorder();
    SortByStable(data, le, k);
    FilterCongruent(SortedData(data), Equivalent(le, k), WithCount(n));
    FilterCongruent(data, Equivalent(le, k), WithCount(n));
  }

  /** The chart's bars, in the order drawn, show for each known category the
      number of products filed under it. */
  lemma {:induction false} ChartBarsCountProducts(products: seq<Product>, categories: seq<string>)
    ensures forall c :: c in SortedData(CategoryData(products, categories)) ==>
              c.name in categories && c.count == Count(products, InCategory(c.name))
  {
    var data := CategoryData(products, categories);
    SortByPermutes(data, ByCountDescending());
    forall c | c in SortedData(data)
      ensures c.name in categories && c.count == Count(products, InCategory(c.name))
    {
      assert c in multiset(SortedData(data));
      var i :| 0 <= i < |data| && data[i] == c;
    }
  }

  /** Sorting the bars again changes nothing. */
  lemma {:induction false} SortedDataIdempotent(data: seq<CategoryCount>)
    ensures SortedData(SortedData(data)) == SortedData(data)
  {
    ByCountDescendingIsTotalPreorder();
    SortBySorted(data, ByCountDescending());
    SortAlreadySorted(SortedData(data), ByCountDescending());
  }
}
