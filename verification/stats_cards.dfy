/** The four summary cards above the table, computed from the whole product
    list (not the filtered one): total inventory value, product count,
    low-stock count and out-of-stock count. */
module StatsCards {
  import opened Collections
  import opened MockData
  import opened ProductContext

  /** Below this stock a product counts as low on stock. */
  const LowStockLimit := 10

  /** `products.reduce((total, p) => total + p.price * p.stock, 0)`, in cents:
      a left fold, so the last product is added last. */
  function InventoryValue(products: seq<Product>): (r: int)
    ensures (forall i :: 0 <= i < |products| ==> products[i].stock == 0) ==> r == 0
    ensures |products| == 1 ==> r == products[0].price * products[0].stock
  {
    if |products| == 0 then 0
    else InventoryValue(products[..|products| - 1]) + products[|products| - 1].price * products[|products| - 1].stock
  }

  /** The value of a concatenation is the sum of the values of its parts. */
  lemma {:induction false} InventoryValueAppend(a: seq<Product>, b: seq<Product>)
    ensures InventoryValue(a + b) == InventoryValue(a) + InventoryValue(b)
    decreases |b|
  {
    if |b| == 0 {
      assert a + b == a;
    } else {
      assert (a + b)[..|a + b| - 1] == a + b[..|b| - 1];
      InventoryValueAppend(a, b[..|b| - 1]);
    }
  }

  /** The value is the sum of each product's own `price * stock`, whichever
      end the sum starts from. */
  lemma {:induction false} InventoryValueFirst(products: seq<Product>)
    requires |products| > 0
    ensures InventoryValue(products) == products[0].price * products[0].stock + InventoryValue(products[1..])
  {
    assert products == [products[0]] + products[1..];
    InventoryValueAppend([products[0]], products[1..]);
  }

  /** With no negative prices or stocks the value is never negative. */
  lemma {:induction false} InventoryValueNonNegative(products: seq<Product>)
    requires forall i :: 0 <= i < |products| ==> products[i].price >= 0 && products[i].stock >= 0
    ensures InventoryValue(products) >= 0
  {
    if |products| > 0 {
      var last := products[|products| - 1];
      InventoryValueNonNegative(products[..|products| - 1]);
      assert last.price * last.stock >= 0;
    }
  }

  function IsLowStock(): Product -> bool
  {
    (p: Product) => p.stock < LowStockLimit
  }

  function IsOutOfStock(): Product -> bool
  {
    (p: Product) => p.stock == 0
  }

  /** The numbers the four cards show. */
  datatype Stats = Stats(totalValue: int, totalProducts: nat, lowStock: nat, outOfStock: nat)

  /** The four cards together. Every out-of-stock product is also a low-stock
      one, and neither count exceeds the product count. */
  function ComputeStats(products: seq<Product>): (r: Stats)
    ensures r.totalProducts == |products|
    ensures r.outOfStock <= r.lowStock <= r.totalProducts
    ensures r.totalValue == InventoryValue(products)
  {
    CountMonotone(products, IsOutOfStock(), IsLowStock());
    Stats(InventoryValue(products), |products|, Count(products, IsLowStock()), Count(products, IsOutOfStock()))
  }

  /** The counts are exactly the products with the property: a product is
      counted as low on stock iff its stock is below 10, and as out of stock
      iff its stock is 0. */
  lemma {:induction false} CountsAreExact(products: seq<Product>)
    ensures forall p :: p in Filter(products, IsLowStock()) <==> p in products && p.stock < 10
    ensures forall p :: p in Filter(products, IsOutOfStock()) <==> p in products && p.stock == 0
  {
    FilterMembers(products, IsLowStock());
    FilterMembers(products, IsOutOfStock());
  }

  /** Adding a product with no stock: one more product, one more low-stock and
      one more out-of-stock item, and the same inventory value. */
  lemma {:induction false} AddEmptyProductStats(store: Store, fields: NewProduct, newId: string)
    requires fields.stock == 0
    ensures var before := ComputeStats(store.products);
            var after := ComputeStats(AddProduct(store, fields, newId).products);
            && after.totalProducts == before.totalProducts + 1
            && after.lowStock == before.lowStock + 1
            && after.outOfStock == before.outOfStock + 1
            && after.totalValue == before.totalValue
  {
    var added := AddProduct(store, fields, newId).products;
    var p := added[|store.products|];
    assert added == store.products + [p];
    FilterAppend(store.products, [p], IsLowStock());
    FilterAppend(store.products, [p], IsOutOfStock());
    InventoryValueAppend(store.products, [p]);
  }

  /** Deleting products never raises either count. */
  lemma {:induction false} DeleteLowersCounts(store: Store, ids: seq<string>)
    ensures var before := ComputeStats(store.products);
            var after := ComputeStats(DeleteProducts(store, ids).products);
            after.lowStock <= before.lowStock && after.outOfStock <= before.outOfStock
  {
    var keep := NotIn(ids);
    var lowKept := (p: Product) => keep(p) && IsLowStock()(p);
    var outKept := (p: Product) => keep(p) && IsOutOfStock()(p);
    FilterFilter(store.products, keep, IsLowStock(), lowKept);
    FilterFilter(store.products, keep, IsOutOfStock(), outKept);
    CountMonotone(store.products, lowKept, IsLowStock());
    CountMonotone(store.products, outKept, IsOutOfStock());
  }
}
