/** Facts about the data every fresh load starts from, and what the views
    show for it before any interaction. */
module SeedFacts {
  import opened Collections
  import opened Text
  import opened MockData
  import opened ProductContext
  import opened FilterPanel
  import opened SearchBar
  import opened StatsCards
  import opened ProductForm

  /** The seed ids are the numerals 1 to 24, in order. */
  lemma SeedIdsAreNumerals()
    ensures |InitialProducts| == 24
    ensures forall i :: 0 <= i < 24 ==> InitialProducts[i].id == Digits(i + 1)
  {
    SeedIdsTo12();
    SeedIdsFrom12();
  }

  lemma SeedIdsTo12()
    ensures forall i :: 0 <= i < 12 ==> InitialProducts[i].id == Digits(i + 1)
  {
    assert Digits(10) == "10";
  }

  lemma SeedIdsFrom12()
    ensures forall i :: 12 <= i < 24 ==> InitialProducts[i].id == Digits(i + 1)
  {
    assert Digits(13) == "13" && Digits(24) == "24";
  }

  /** No two seed products share an id: distinct numbers have distinct
      numerals, because a numeral reads back as its number. */
  lemma SeedIdsUnique()
    ensures UniqueIds(InitialProducts)
  {
    SeedIdsAreNumerals();
    forall i, j | 0 <= i < j < |InitialProducts|
      ensures IdsDiffer(InitialProducts[i], InitialProducts[j])
    {
      DigitsRoundTrip(i + 1);
      DigitsRoundTrip(j + 1);
    }
  }

  /** The category list names each category once, and every seed product is
      filed under one of them. */
  lemma SeedCategoriesKnown()
    ensures NoDuplicates(Categories)
    ensures forall i :: 0 <= i < |InitialProducts| ==> InitialProducts[i].category in Categories
  {
  }

  /** A string starting with a non-whitespace character is not blank. */
  lemma {:induction false} NotBlankWhenStartsVisible(s: string)
    requires |s| > 0 && !IsWhitespace(s[0])
    ensures !IsBlank(s)
  {
    BlankIffAllWhitespace(s);
  }

  /** Every seed name starts with a visible character, and every seed
      product has a category, a positive price and a non-negative stock. */
  lemma SeedFieldsFilled()
    ensures forall i :: 0 <= i < |InitialProducts| ==>
              |InitialProducts[i].name| > 0 && !IsWhitespace(InitialProducts[i].name[0])
    ensures forall i :: 0 <= i < |InitialProducts| ==>
              InitialProducts[i].category != "" && InitialProducts[i].price > 0 && InitialProducts[i].stock >= 0
  {
  }

  /** Every seed product passes the product form's rules. */
  lemma SeedProductsValid()
    ensures forall i :: 0 <= i < |InitialProducts| ==> ValidProduct(InitialProducts[i])
  {
    SeedFieldsFilled();
    forall i | 0 <= i < |InitialProducts| ensures ValidProduct(InitialProducts[i]) {
      NotBlankWhenStartsVisible(InitialProducts[i].name);
    }
  }

  const ElectronicsRows := [0, 1, 2, 16, 23]

  /** The "Electronics" rows, checked six products at a time. */
  lemma ElectronicsRows0To6()
    ensures forall i :: 0 <= i < 6 ==>
              (InitialProducts[i].category in ["Electronics"] <==> i in ElectronicsRows)
  {
  }

  lemma ElectronicsRows6To12()
    ensures forall i :: 6 <= i < 12 ==>
              (InitialProducts[i].category in ["Electronics"] <==> i in ElectronicsRows)
  {
  }

  lemma ElectronicsRows12To18()
    ensures forall i :: 12 <= i < 18 ==>
              (InitialProducts[i].category in ["Electronics"] <==> i in ElectronicsRows)
  {
  }

  lemma ElectronicsRows18To24()
    ensures forall i :: 18 <= i < 24 ==>
              (InitialProducts[i].category in ["Electronics"] <==> i in ElectronicsRows)
  {
  }

  lemma ElectronicsMarks()
    ensures IncreasingIndices(ElectronicsRows, |InitialProducts|)
    ensures MarksExactly(InitialProducts, InCategories(["Electronics"]), ElectronicsRows)
  {
    ElectronicsRows0To6();
    ElectronicsRows6To12();
    ElectronicsRows12To18();
    ElectronicsRows18To24();
  }

  /** The "Electronics" filter keeps products 1, 2, 3, 17 and 24. */
  lemma ElectronicsFilter()
    ensures Filter(InitialProducts, InCategories(["Electronics"])) == Pick(InitialProducts, ElectronicsRows)
  {
    ElectronicsMarks();
    FilterByIndices(InitialProducts, InCategories(["Electronics"]), ElectronicsRows);
  }

  /** A five-element list, element by element. */
  lemma {:induction false} ListOfFive(s: seq<string>, a: string, b: string, c: string, d: string, e: string)
    requires |s| == 5 && s[0] == a && s[1] == b && s[2] == c && s[3] == d && s[4] == e
    ensures s == [a, b, c, d, e]
  {
  }

  /** Every seed product has some stock. */
  lemma SeedAllInStock()
    ensures forall i :: 0 <= i < |InitialProducts| ==> InitialProducts[i].stock > 0
  {
  }

  lemma ElectronicsIds()
    ensures Ids(Pick(InitialProducts, ElectronicsRows)) == ["1", "2", "3", "17", "24"]
  {
    ElectronicsMarks();
    var ids := Ids(Pick(InitialProducts, ElectronicsRows));
    assert ids[0] == "1" && ids[1] == "2" && ids[2] == "3" && ids[3] == "17" && ids[4] == "24";
    ListOfFive(ids, "1", "2", "3", "17", "24");
  }

  /** Every "Electronics" product has some stock. */
  lemma ElectronicsInStock()
    ensures Filter(Pick(InitialProducts, ElectronicsRows), HasStock()) == Pick(InitialProducts, ElectronicsRows)
  {
    SeedAllInStock();
    FilterAll(Pick(InitialProducts, ElectronicsRows), HasStock());
  }

  /** Ticking "Electronics" shows products 1, 2, 3, 17 and 24, and so does
      also switching on "in stock only". */
  lemma SeedElectronics()
    ensures Ids(ApplyFilters(InitialProducts, Criteria(["Electronics"], false))) == ["1", "2", "3", "17", "24"]
    ensures Ids(ApplyFilters(InitialProducts, Criteria(["Electronics"], true))) == ["1", "2", "3", "17", "24"]
  {
    var shown := Pick(InitialProducts, ElectronicsRows);
    assert Filter(InitialProducts, InCategories(["Electronics"])) == shown by {
      ElectronicsFilter();
    }
    assert Filter(shown, HasStock()) == shown by {
      ElectronicsInStock();
    }
    ElectronicsIds();
  }

  const LowStockRows := [0, 6, 10, 13, 18]

  lemma LowStockMarks()
    ensures IncreasingIndices(LowStockRows, |InitialProducts|)
    ensures MarksExactly(InitialProducts, IsLowStock(), LowStockRows)
  {
    assert forall i :: 0 <= i < |InitialProducts| ==> (InitialProducts[i].stock < 10 <==> i in LowStockRows);
  }

  lemma LowStockIds()
    ensures Ids(Pick(InitialProducts, LowStockRows)) == ["1", "7", "11", "14", "19"]
  {
    LowStockMarks();
    var ids := Ids(Pick(InitialProducts, LowStockRows));
    assert ids[0] == "1" && ids[1] == "7" && ids[2] == "11" && ids[3] == "14" && ids[4] == "19";
    ListOfFive(ids, "1", "7", "11", "14", "19");
  }

  /** The cards on a fresh load: 24 products, five low on stock (products 1,
      7, 11, 14 and 19) and none out of stock. */
  lemma LowStockFilter()
    ensures Filter(InitialProducts, IsLowStock()) == Pick(InitialProducts, LowStockRows)
  {
    LowStockMarks();
    FilterByIndices(InitialProducts, IsLowStock(), LowStockRows);
  }

  lemma NoneOutOfStock()
    ensures Filter(InitialProducts, IsOutOfStock()) == []
  {
    SeedAllInStock();
    FilterNone(InitialProducts, IsOutOfStock());
  }

  lemma SeedStats()
    ensures ComputeStats(InitialProducts).totalProducts == 24
    ensures ComputeStats(InitialProducts).lowStock == 5
    ensures ComputeStats(InitialProducts).outOfStock == 0
    ensures Ids(Filter(InitialProducts, IsLowStock())) == ["1", "7", "11", "14", "19"]
  {
    LowStockFilter();
    NoneOutOfStock();
    LowStockIds();
  }

  /** Every seed price ends in 99 cents. */
  lemma SeedPricesEndIn99()
    ensures forall i :: 0 <= i < |InitialProducts| ==> InitialProducts[i].price % 100 == 99
  {
    SeedPricesEndIn99To12();
    SeedPricesEndIn99From12();
  }

  lemma SeedPricesEndIn99To12()
    ensures forall i :: 0 <= i < 12 ==> InitialProducts[i].price % 100 == 99
  {
  }

  lemma SeedPricesEndIn99From12()
    ensures forall i :: 12 <= i < 24 ==> InitialProducts[i].price % 100 == 99
  {
  }

  /** Every seed price ends in 99 cents, so searching for "99" shows every product. */
  lemma SeedSearch99()
    ensures Search(InitialProducts, "99") == InitialProducts
  {
    SeedFieldsFilled();
    SeedPricesEndIn99();
    SearchFor99KeepsAll(InitialProducts);
  }
}
