/** The product store: the canonical product list, the selection list shared
    by the table, the three mutators, and the per-category counts the chart
    is drawn from. Each React state update is a pure function from the old
    state to the new one. */
module ProductContext {
  import opened Collections
  import opened MockData

  /** A product as the form submits it for creation: every field but the id. */
  datatype NewProduct = NewProduct(name: string, category: string, price: int, stock: int)

  /** One bar of the category chart. */
  datatype CategoryCount = CategoryCount(name: string, count: nat)

  /** The context's own state: the product list and the ids selected in the table. */
  datatype Store = Store(products: seq<Product>, selected: seq<string>)

  /** The store a fresh page load starts with. */
  const InitialStore := Store(InitialProducts, [])

  /** The ids of a list of products, in order. The table builds this list for
      its current page (`currentProducts.map(product => product.id)`) when
      selecting or deselecting the whole page; deletion and lookup use it too. */
  function Ids(ps: seq<Product>): (r: seq<string>)
    ensures |r| == |ps|
    ensures forall i :: 0 <= i < |ps| ==> r[i] == ps[i].id
  {
    seq(|ps|, i requires 0 <= i < |ps| => ps[i].id)
  }

  /** An id is listed exactly when some product carries it. */
  lemma {:induction false} IdsMembers(ps: seq<Product>)
    ensures forall x :: x in Ids(ps) <==> exists i :: 0 <= i < |ps| && ps[i].id == x
  {
    forall x | x in Ids(ps) ensures exists i :: 0 <= i < |ps| && ps[i].id == x {
      var i :| 0 <= i < |ps| && Ids(ps)[i] == x;
      assert ps[i].id == x;
    }
  }

  predicate IdsDiffer(a: Product, b: Product)
  {
    a.id != b.id
  }

  /** No two products share an id. */
  ghost predicate UniqueIds(ps: seq<Product>)
  {
    Pairwise(ps, IdsDiffer)
  }

  function InCategory(c: string): Product -> bool
  {
    (p: Product) => p.category == c
  }

  function InCategories(cs: seq<string>): Product -> bool
  {
    (p: Product) => p.category in cs
  }

  /** The chart data: for each known category, in order, how many products
      carry exactly that category name. */
  function CategoryData(products: seq<Product>, categories: seq<string>): (r: seq<CategoryCount>)
    ensures |r| == |categories|
    ensures forall i :: 0 <= i < |r| ==>
              r[i].name == categories[i] && r[i].count == Count(products, InCategory(categories[i]))
  {
    if |categories| == 0 then []
    else
      [CategoryCount(categories[0], Count(products, InCategory(categories[0])))]
      + CategoryData(products, categories[1..])
  }

  function TotalCount(data: seq<CategoryCount>): nat
  {
    if |data| == 0 then 0 else data[0].count + TotalCount(data[1..])
  }

  /** With distinct category names, the chart's bars add up to the number of
      products whose category is one of them: no product is counted twice. */
  lemma {:induction false} CategoryDataPartitions(products: seq<Product>, categories: seq<string>)
    requires NoDuplicates(categories)
    ensures TotalCount(CategoryData(products, categories)) == Count(products, InCategories(categories))
    decreases |categories|
  {
    if |categories| == 0 {
      FilterNone(products, InCategories(categories));
    } else {
      var c := categories[0];
      var rest := categories[1..];
      NoDuplicatesCons(categories);
      CategoryDataPartitions(products, rest);
      CountDisjointUnion(products, InCategory(c), InCategories(rest), InCategories(categories));
    }
  }

  /** When every product's category is known, the bars count every product. */
  lemma {:induction false} CategoryDataCountsEveryProduct(products: seq<Product>, categories: seq<string>)
    requires NoDuplicates(categories)
    requires forall i :: 0 <= i < |products| ==> products[i].category in categories
    ensures TotalCount(CategoryData(products, categories)) == |products|
  {
    CategoryDataPartitions(products, categories);
    FilterAll(products, InCategories(categories));
  }

  /** `addProduct`: append the submitted fields under the new id. */
  function AddProduct(store: Store, fields: NewProduct, newId: string): (r: Store)
    ensures |r.products| == |store.products| + 1
    ensures r.products[..|store.products|] == store.products
    ensures r.products[|store.products|]
            == Product(newId, fields.name, fields.category, fields.price, fields.stock)
    ensures r.selected == store.selected
    ensures UniqueIds(store.products) && newId !in Ids(store.products) ==> UniqueIds(r.products)
  {
    var added := Product(newId, fields.name, fields.category, fields.price, fields.stock);
    var ps := store.products + [added];
    assert UniqueIds(store.products) && newId !in Ids(store.products) ==> UniqueIds(ps) by {
      if UniqueIds(store.products) && newId !in Ids(store.products) {
        forall i, j | 0 <= i < j < |ps| ensures ps[i].id != ps[j].id {
          if j == |store.products| {
            assert Ids(store.products)[i] == ps[i].id;
          }
        }
      }
    }
    store.(products := ps)
  }

  function Replace(ps: seq<Product>, updated: Product): (r: seq<Product>)
    ensures |r| == |ps|
    ensures forall i :: 0 <= i < |ps| ==>
              r[i] == (if ps[i].id == updated.id then updated else ps[i])
  {
    if |ps| == 0 then []
    else [if ps[0].id == updated.id then updated else ps[0]] + Replace(ps[1..], updated)
  }

  /** `updateProduct`: every record with the argument's id becomes the argument;
      an unknown id leaves the list as it was. */
  function UpdateProduct(store: Store, updated: Product): (r: Store)
    ensures |r.products| == |store.products|
    ensures forall i :: 0 <= i < |store.products| && store.products[i].id != updated.id ==>
              r.products[i] == store.products[i]
    ensures forall i :: 0 <= i < |store.products| && store.products[i].id == updated.id ==>
              r.products[i] == updated
    ensures updated.id !in Ids(store.products) ==> r.products == store.products
    ensures Ids(r.products) == Ids(store.products)
    ensures r.selected == store.selected
  {
    store.(products := Replace(store.products, updated))
  }

  /** Updating twice with the same record is updating once. */
  lemma {:induction false} UpdateIdempotent(store: Store, updated: Product)
    ensures UpdateProduct(UpdateProduct(store, updated), updated) == UpdateProduct(store, updated)
  {
  }

  /** Updating keeps ids unique, since no id changes. */
  lemma {:induction false} UpdateKeepsIdsUnique(store: Store, updated: Product)
    requires UniqueIds(store.products)
    ensures UniqueIds(UpdateProduct(store, updated).products)
  {
    var ps := UpdateProduct(store, updated).products;
    forall i, j | 0 <= i < j < |ps| ensures ps[i].id != ps[j].id {
      assert Ids(ps)[i] == Ids(store.products)[i] && Ids(ps)[j] == Ids(store.products)[j];
    }
  }

  function NotIn(ids: seq<string>): Product -> bool
  {
    (p: Product) => p.id !in ids
  }

  /** `deleteProducts`: drop every product whose id is listed, and clear the
      whole selection, not only the deleted ids. */
  function DeleteProducts(store: Store, ids: seq<string>): (r: Store)
    ensures |r.products| <= |store.products|
    ensures forall i :: 0 <= i < |r.products| ==> r.products[i].id !in ids
    ensures forall i :: 0 <= i < |store.products| && store.products[i].id !in ids ==>
              store.products[i] in r.products
    ensures r.selected == []
  {
    FilterMembers(store.products, NotIn(ids));
    Store(Filter(store.products, NotIn(ids)), [])
  }

  /** The remaining products are the old ones in their old order, and are
      exactly those whose id was not listed. */
  lemma {:induction false} DeleteKeepsOrder(store: Store, ids: seq<string>)
    ensures IsSubseq(DeleteProducts(store, ids).products, store.products)
    ensures forall p :: p in DeleteProducts(store, ids).products <==> p in store.products && p.id !in ids
  {
    FilterIsSubseq(store.products, NotIn(ids));
    FilterMembers(store.products, NotIn(ids));
  }

  /** Deleting the same ids again removes nothing more. */
  lemma {:induction false} DeleteIdempotent(store: Store, ids: seq<string>)
    ensures DeleteProducts(DeleteProducts(store, ids), ids) == DeleteProducts(store, ids)
  {
    var once := DeleteProducts(store, ids).products;
    FilterAll(once, NotIn(ids));
  }

  /** Deleting keeps ids unique. */
  lemma {:induction false} DeleteKeepsIdsUnique(store: Store, ids: seq<string>)
    requires UniqueIds(store.products)
    ensures UniqueIds(DeleteProducts(store, ids).products)
  {
    FilterPairwise(store.products, NotIn(ids), IdsDiffer);
  }
}
