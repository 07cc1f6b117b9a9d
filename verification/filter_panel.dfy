/** The category and stock filter panel: its criteria, the effect that
    recomputes `filteredProducts` from `products` whenever either changes, the
    category toggle, the reset, and the per-category badge counts. */
module FilterPanel {
  import opened Collections
  import opened MockData
  import opened ProductContext

  /** The panel's own state: the ticked categories and the in-stock switch. */
  datatype Criteria = Criteria(selectedCategories: seq<string>, inStockOnly: bool)

  /** The state the panel mounts with. */
  const NoFilters := Criteria([], false)

  function HasStock(): Product -> bool
  {
    (p: Product) => p.stock > 0
  }

  /** Both active predicates at once: the category is ticked (when any is)
      and the product is in stock (when the switch is on). */
  predicate Matches(c: Criteria, p: Product)
  {
    && (|c.selectedCategories| == 0 || p.category in c.selectedCategories)
    && (!c.inStockOnly || p.stock > 0)
  }

  function MatchesCriteria(c: Criteria): Product -> bool
  {
    (p: Product) => Matches(c, p)
  }

  /** The effect body: narrow a copy of the products by category when any is
      ticked, then by stock when the switch is on. */
  function ApplyFilters(products: seq<Product>, c: Criteria): (r: seq<Product>)
    ensures |r| <= |products|
    ensures forall i :: 0 <= i < |r| ==> Matches(c, r[i])
    ensures |c.selectedCategories| == 0 && !c.inStockOnly ==> r == products
  {
    var byCategory :=
      if |c.selectedCategories| > 0 then Filter(products, InCategories(c.selectedCategories))
      else products;
    if c.inStockOnly then
      FilterKeepsProperty(byCategory, HasStock(), MatchesCategory(c));
      Filter(byCategory, HasStock())
    else byCategory
  }

  function MatchesCategory(c: Criteria): Product -> bool
  {
    (p: Product) => |c.selectedCategories| == 0 || p.category in c.selectedCategories
  }

  /** The two passes are one filter by the conjunction of the active predicates. */
  lemma {:induction false} ApplyFiltersIsOneFilter(products: seq<Product>, c: Criteria)
    ensures ApplyFilters(products, c) == Filter(products, MatchesCriteria(c))
  {
    var sel := c.selectedCategories;
    if |sel| > 0 && c.inStockOnly {
      FilterFilter(products, InCategories(sel), HasStock(), MatchesCriteria(c));
    } else if |sel| > 0 {
      FilterCongruent(products, InCategories(sel), MatchesCriteria(c));
    } else if c.inStockOnly {
      FilterCongruent(products, HasStock(), MatchesCriteria(c));
    } else {
      FilterAll(products, MatchesCriteria(c));
    }
  }

  /** The filtered list keeps the products' order, fabricates and duplicates
      nothing, and keeps a product exactly when it satisfies both active
      predicates (soundness and completeness). */
  lemma {:induction false} ApplyFiltersExact(products: seq<Product>, c: Criteria)
    ensures IsSubseq(ApplyFilters(products, c), products)
    ensures multiset(ApplyFilters(products, c)) <= multiset(products)
    ensures forall p :: p in ApplyFilters(products, c) <==> p in products && Matches(c, p)
  {
    ApplyFiltersIsOneFilter(products, c);
    FilterIsSubseq(products, MatchesCriteria(c));
    FilterSubMultiset(products, MatchesCriteria(c));
    FilterMembers(products, MatchesCriteria(c));
  }

  /** Filtering the filtered list again changes nothing. */
  lemma {:induction false} ApplyFiltersIdempotent(products: seq<Product>, c: Criteria)
    ensures ApplyFilters(ApplyFilters(products, c), c) == ApplyFilters(products, c)
  {
    var once := ApplyFilters(products, c);
    ApplyFiltersIsOneFilter(once, c);
    FilterAll(once, MatchesCriteria(c));
  }

  /** `handleCategoryChange`: untick a ticked category (every copy of it),
      tick an unticked one by appending it. */
  function ToggleCategory(selected: seq<string>, category: string): (r: seq<string>)
    ensures category in r <==> category !in selected
    ensures forall x :: x != category ==> (x in r <==> x in selected)
    ensures NoDuplicates(selected) ==> NoDuplicates(r)
  {
    Toggle(selected, category)
  }

  /** Toggling the same category twice restores which categories are ticked. */
  lemma {:induction false} ToggleTwiceRestores(selected: seq<string>, category: string)
    ensures forall x :: x in ToggleCategory(ToggleCategory(selected, category), category) <==> x in selected
  {
    ToggleTwice(selected, category);
  }

  /** `handleClearFilters`: whatever the criteria were, afterwards the panel
      shows every product. */
  function ClearFilters(c: Criteria): (r: Criteria)
    ensures forall products :: ApplyFilters(products, r) == products
    ensures !r.inStockOnly && |r.selectedCategories| == 0
  {
    NoFilters
  }

  /** The "Clear" link above the category list: untick every category, but
      leave the in-stock switch as it is. */
  function ClearCategories(c: Criteria): (r: Criteria)
    ensures |r.selectedCategories| == 0
    ensures r.inStockOnly == c.inStockOnly
  {
    c.(selectedCategories := [])
  }

  /** After "Clear" only the stock switch filters, so every product shown
      before is still shown. */
  lemma {:induction false} ClearCategoriesShowsMore(products: seq<Product>, c: Criteria)
    ensures forall p :: p in ApplyFilters(products, ClearCategories(c)) <==>
                          p in products && (!c.inStockOnly || p.stock > 0)
    ensures forall p :: p in ApplyFilters(products, c) ==> p in ApplyFilters(products, ClearCategories(c))
  {
    ApplyFiltersExact(products, c);
    ApplyFiltersExact(products, ClearCategories(c));
  }

  /** `getCategoryCount`: the badge beside a category's checkbox. */
  function CategoryBadge(products: seq<Product>, category: string): (r: nat)
    ensures r <= |products|
    ensures r == 0 <==> forall p :: p in products ==> p.category != category
  {
    var shown := Filter(products, InCategory(category));
    FilterMembers(products, InCategory(category));
    assert |shown| > 0 ==> shown[0] in shown;
    |shown|
  }

  /** The badge beside each category shows the same number as that
      category's bar in the chart. */
  lemma {:induction false} BadgeMatchesChart(products: seq<Product>, categories: seq<string>, i: nat)
    requires i < |categories|
    ensures CategoryBadge(products, categories[i]) == CategoryData(products, categories)[i].count
  {
  }
}
