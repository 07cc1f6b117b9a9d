/** The product detail sheet: it looks the product up by id, renders nothing
    for an unknown id, and otherwise shows the stock status with its colour,
    the stock value, a shortened id and the SKU. */
module ProductDetail {
  import opened Collections
  import opened Text
  import opened MockData
  import opened ProductContext
  import opened StatsCards

  /** `products.find(p => p.id === productId)`. */
  function FindProduct(products: seq<Product>, productId: string): (r: Option<Product>)
    ensures r.None? <==> productId !in Ids(products)
    ensures r.Some? ==> r.value in products && r.value.id == productId
    ensures r.Some? ==> exists i :: 0 <= i < |products| && products[i] == r.value &&
                                  forall j :: 0 <= j < i ==> products[j].id != productId
  {
    var found := Find(products, (p: Product) => p.id == productId);
    IdsMembers(products);
    found
  }

  /** With unique ids the lookup finds the one product carrying the id. */
  lemma {:induction false} FindProductUnique(products: seq<Product>, i: nat)
    requires UniqueIds(products) && i < |products|
    ensures FindProduct(products, products[i].id) == Some(products[i])
  {
    var r := FindProduct(products, products[i].id);
    var j :| 0 <= j < |products| && products[j] == r.value;
    assert Pairwise(products, IdsDiffer);
    assert j == i;
  }

  datatype StockStatus = OutOfStock | LowStock | InStock

  /** The three-way status: no stock, below ten, or anything else (a
      negative stock therefore shows as low). */
  function StatusOf(stock: int): (r: StockStatus)
    ensures r == OutOfStock <==> stock == 0
    ensures r == LowStock <==> stock != 0 && stock < 10
    ensures r == InStock <==> stock >= 10
  {
    if stock == 0 then OutOfStock else if stock < 10 then LowStock else InStock
  }

  function StatusLabel(s: StockStatus): string
  {
    match s
    case OutOfStock => "Out of Stock"
    case LowStock => "Low Stock"
    case InStock => "In Stock"
  }

  function StatusClass(s: StockStatus): string
  {
    match s
    case OutOfStock => "text-red-500"
    case LowStock => "text-amber-500"
    case InStock => "text-green-500"
  }

  /** Label and colour class track the status one-to-one: a different status
      always shows a different label and a different colour. */
  lemma {:induction false} LabelAndClassDetermineStatus(s: StockStatus, t: StockStatus)
    ensures StatusLabel(s) == StatusLabel(t) <==> s == t
    ensures StatusClass(s) == StatusClass(t) <==> s == t
  {
  }

  function HasStatus(s: StockStatus): Product -> bool
  {
    (p: Product) => StatusOf(p.stock) == s
  }

  /** The sheets agree with the cards: the products shown as out of stock are
      the ones the out-of-stock card counts, and those shown as out of stock
      or low are the ones the low-stock card counts. */
  lemma {:induction false} StatusesAgreeWithCards(products: seq<Product>)
    ensures Count(products, HasStatus(OutOfStock)) == ComputeStats(products).outOfStock
    ensures Count(products, HasStatus(OutOfStock)) + Count(products, HasStatus(LowStock))
            == ComputeStats(products).lowStock
  {
    FilterCongruent(products, HasStatus(OutOfStock), IsOutOfStock());
    CountDisjointUnion(products, HasStatus(OutOfStock), HasStatus(LowStock), IsLowStock());
  }

  /** `id.substring(0, n)`: the first `n` characters, or all of a shorter id. */
  function Prefix(id: string, n: nat): (r: string)
    ensures |r| == Min(n, |id|)
    ensures IsPrefix(r, id)
  {
    if |id| <= n then id else id[..n]
  }

  /** The SKU: "SKU-" and the upper-cased first six characters of the id. */
  function Sku(id: string): (r: string)
    ensures |r| == 4 + Min(6, |id|)
    ensures r[..4] == "SKU-"
    ensures forall k :: 0 <= k < |r| - 4 ==> r[4 + k] == UpperChar(id[k])
  {
    "SKU-" + ToUpper(Prefix(id, 6))
  }

  /** The SKU never shows a lower-case ASCII letter. */
  lemma {:induction false} SkuHasNoLowerCase(id: string)
    ensures forall k :: 0 <= k < |Sku(id)| ==> !('a' <= Sku(id)[k] <= 'z')
  {
    var r := Sku(id);
    forall k | 0 <= k < |r| ensures !('a' <= r[k] <= 'z') {
      if k < 4 {
        assert r[k] == r[..4][k];
      } else {
        UpperCharIsNotLower(id[k - 4]);
      }
    }
  }

  /** Two ids that differ only in letter case get the same SKU. */
  lemma {:induction false} SkuIgnoresCase(id: string)
    ensures Sku(ToLower(id)) == Sku(id)
  {
    var a := Sku(ToLower(id));
    var b := Sku(id);
    assert |a| == |b|;
    forall k | 0 <= k < |a| ensures a[k] == b[k] {
      if k < 4 {
        assert a[k] == a[..4][k] && b[k] == b[..4][k];
      } else {
        assert a[k] == UpperChar(LowerChar(id[k - 4]));
        UpperOfLower(id[k - 4]);
      }
    }
  }

  /** The SKU's code is the start of the shortened id shown under the name,
      upper-cased. */
  lemma {:induction false} SkuExtendsShortId(id: string)
    ensures Sku(id)[4..] == ToUpper(Prefix(Prefix(id, 8), 6))
  {
  }

  /** What the sheet shows for a product. Prices and values are in cents. */
  datatype Detail = Detail(
    name: string, shortId: string, category: string, price: int, stock: int,
    status: StockStatus, statusLabel: string, statusClass: string,
    stockValue: int, sku: string)

  /** The sheet's figures are those of `p`. */
  predicate ShowsProduct(d: Detail, p: Product)
  {
    && d.name == p.name && d.category == p.category && d.price == p.price && d.stock == p.stock
    && d.shortId == Prefix(p.id, 8) && d.sku == Sku(p.id)
  }

  /** The sheet: nothing for an unknown id, otherwise the figures of the
      first product carrying it. */
  function DetailView(products: seq<Product>, productId: string): (r: Option<Detail>)
    ensures r.None? <==> productId !in Ids(products)
    ensures r.Some? ==>
              && r.value.statusLabel == StatusLabel(r.value.status)
              && r.value.statusClass == StatusClass(r.value.status)
              && r.value.status == StatusOf(r.value.stock)
              && r.value.stockValue == r.value.price * r.value.stock
              && exists i :: 0 <= i < |products| && products[i].id == productId &&
                             (forall j :: 0 <= j < i ==> products[j].id != productId) &&
                             ShowsProduct(r.value, products[i])
  {
    match FindProduct(products, productId)
    case None => None
    case Some(p) =>
      var s := StatusOf(p.stock);
      Some(Detail(p.name, Prefix(p.id, 8), p.category, p.price, p.stock,
                  s, StatusLabel(s), StatusClass(s), p.price * p.stock, Sku(p.id)))
  }

  /** The stock value of every product adds up to the inventory value card. */
  lemma {:induction false} StockValuesSumToInventoryValue(products: seq<Product>)
    ensures InventoryValue(products) == SumStockValues(products)
    decreases |products|
  {
    if |products| > 0 {
      InventoryValueFirst(products);
      StockValuesSumToInventoryValue(products[1..]);
    }
  }

  /** The stock values, added from the first product on. */
  function SumStockValues(products: seq<Product>): int
  {
    if |products| == 0 then 0 else products[0].price * products[0].stock + SumStockValues(products[1..])
  }
}
