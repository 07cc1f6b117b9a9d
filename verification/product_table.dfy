/** The product table: it sorts a copy of `filteredProducts` by the chosen
    column and direction, shows one page of seven rows, keeps the page number
    in range through the Previous/Next buttons and the reset on every change
    of the filtered list, edits the shared selection through the row and
    header checkboxes, and confirms single and batch deletions. */
module ProductTable {
  import opened Collections
  import opened Text
  import opened Sorting
  import opened MockData
  import opened ProductContext
  import opened StatsCards
  import opened ProductDetail

  /** Below this stock a row shows the low-stock bell. */
  const LowStockThreshold := 10

  /** Rows per page. */
  const PageSize := 7

  /** The four sortable columns. */
  datatype SortField = Name | Category | Price | Stock

  datatype SortDirection = Asc | Desc

  /** The table's own state; the selection lives in the store. */
  datatype TableState = TableState(page: int, field: SortField, direction: SortDirection)

  /** The table mounts on page 1, sorted by name, ascending. */
  const InitialTable := TableState(1, Name, Asc)

  // ---------------------------------------------------------------- sorting

  /** The comparator of the sort, as the relation "returns a value `<= 0`":
      `localeCompare` on the text columns, numeric difference on the others,
      with the operands swapped for a descending sort. */
  predicate InColumnOrder(field: SortField, direction: SortDirection, a: Product, b: Product)
  {
    match (field, direction)
    case (Name, Asc) => StrLe(a.name, b.name)
    case (Name, Desc) => StrLe(b.name, a.name)
    case (Category, Asc) => StrLe(a.category, b.category)
    case (Category, Desc) => StrLe(b.category, a.category)
    case (Price, Asc) => a.price <= b.price
    case (Price, Desc) => b.price <= a.price
    case (Stock, Asc) => a.stock <= b.stock
    case (Stock, Desc) => b.stock <= a.stock
  }

  function ProductLe(field: SortField, direction: SortDirection): (Product, Product) -> bool
  {
    (a: Product, b: Product) => InColumnOrder(field, direction, a, b)
  }

  /** Every column and direction gives a consistent comparator. */
  lemma {:induction false} ProductLeIsTotalPreorder(field: SortField, direction: SortDirection)
    ensures TotalPreorder(ProductLe(field, direction))
  {
    var le := ProductLe(field, direction);
    forall x, y ensures le(x, y) || le(y, x) {
      StrLeTotal(x.name, y.name);
      StrLeTotal(x.category, y.category);
    }
    forall x, y, z | le(x, y) && le(y, z) ensures le(x, z) {
      match (field, direction)
      case (Name, Asc) => StrLeTransitive(x.name, y.name, z.name);
      case (Name, Desc) => StrLeTransitive(z.name, y.name, x.name);
      case (Category, Asc) => StrLeTransitive(x.category, y.category, z.category);
      case (Category, Desc) => StrLeTransitive(z.category, y.category, x.category);
      case _ =>
    }
  }

  /** `[...filteredProducts].sort(...)`. */
  function SortProducts(filtered: seq<Product>, field: SortField, direction: SortDirection): (r: seq<Product>)
    ensures |r| == |filtered|
  {
    SortBy(filtered, ProductLe(field, direction))
  }

  /** The sorted rows are the filtered products, each exactly as often, in the
      requested order: prices and stocks non-decreasing (ascending) or
      non-increasing (descending), names and categories likewise in
      lexicographic order. */
  lemma {:induction false} SortProductsOrdered(filtered: seq<Product>, field: SortField, direction: SortDirection)
    ensures multiset(SortProducts(filtered, field, direction)) == multiset(filtered)
    ensures var r := SortProducts(filtered, field, direction);
            forall i, j :: 0 <= i < j < |r| ==> InColumnOrder(field, direction, r[i], r[j])
  {
    var le := ProductLe(field, direction);
    SortByPermutes(filtered, le);
    ProductLeIsTotalPreorder(field, direction);
    SortBySorted(filtered, le);
    var r := SortProducts(filtered, field, direction);
    assert forall i, j :: 0 <= i < j < |r| ==> le(r[i], r[j]);
  }

  /** Rows that tie on the sort key keep the order they had in the filtered
      list (the sort is stable). */
  lemma {:induction false} SortProductsStable(filtered: seq<Product>, field: SortField, direction: SortDirection, k: Product)
    ensures var le := ProductLe(field, direction);
            Filter(SortProducts(filtered, field, direction), Equivalent(le, k)) == Filter(filtered, Equivalent(le, k))
  {
    ProductLeIsTotalPreorder(field, direction);
    SortByStable(filtered, ProductLe(field, direction), k);
  }

  /** The rows are never sorted from an earlier sort: re-sorting by any
      direction of the same column gives the same table as sorting the
      filtered list directly. */
  lemma {:induction false} ResortSameColumn(filtered: seq<Product>, field: SortField, d1: SortDirection, d2: SortDirection)
    ensures SortProducts(SortProducts(filtered, field, d1), field, d2) == SortProducts(filtered, field, d2)
  {
    var le1 := ProductLe(field, d1);
    var le2 := ProductLe(field, d2);
    ProductLeIsTotalPreorder(field, d1);
    ProductLeIsTotalPreorder(field, d2);
    ResortForgetsFirstSort(filtered, le1, le2);
  }

  /** `handleSort`: clicking the current column flips the direction; clicking
      another column sorts by it ascending. */
  function HandleSort(t: TableState, clicked: SortField): (r: TableState)
    ensures r.field == clicked
    ensures t.field == clicked ==> r.direction != t.direction
    ensures t.field != clicked ==> r.direction == Asc
    ensures r.page == t.page
  {
    if t.field == clicked then t.(direction := if t.direction == Asc then Desc else Asc)
    else t.(field := clicked, direction := Asc)
  }

  /** Clicking the same header twice restores the sort; clicking a new header
      twice sorts it descending. */
  lemma {:induction false} HandleSortTwice(t: TableState, clicked: SortField)
    ensures t.field == clicked ==> HandleSort(HandleSort(t, clicked), clicked) == t
    ensures t.field != clicked ==> HandleSort(HandleSort(t, clicked), clicked).direction == Desc
  {
  }

  // ------------------------------------------------------------- pagination

  /** `Array.prototype.slice(start, end)`: negative positions count from the
      end, and both are clamped to the sequence. */
  function JsSlice<T>(s: seq<T>, start: int, end: int): (r: seq<T>)
    ensures |r| <= |s|
  {
    var n := |s|;
    var from := if start < 0 then Max(n + start, 0) else Min(start, n);
    var to := if end < 0 then Max(n + end, 0) else Min(end, n);
    if from < to then s[from..to] else []
  }

  /** `Math.ceil(filteredProducts.length / PAGE_SIZE)`. */
  function TotalPages(n: nat): (r: nat)
    ensures n == 0 <==> r == 0
    ensures r > 0 ==> (r - 1) * PageSize < n <= r * PageSize
  {
    (n + PageSize - 1) / PageSize
  }

  /** The rows of page `page` (counted from 1) of the sorted list. */
  function Page<T>(sorted: seq<T>, page: int): (r: seq<T>)
    ensures |r| <= PageSize
    ensures page >= 1 ==>
              r == sorted[Min((page - 1) * PageSize, |sorted|)..Min(page * PageSize, |sorted|)]
    ensures page == 0 ==> r == []
  {
    JsSlice(sorted, (page - 1) * PageSize, page * PageSize)
  }

  /** Row `i` of the sorted list appears on page `i / 7 + 1`, at position `i % 7`. */
  lemma {:induction false} RowOnItsPage<T>(sorted: seq<T>, i: nat)
    requires i < |sorted|
    ensures i % PageSize < |Page(sorted, i / PageSize + 1)|
    ensures Page(sorted, i / PageSize + 1)[i % PageSize] == sorted[i]
  {
  }

  /** Pages in range are non-empty; pages beyond the last are empty. */
  lemma {:induction false} PageEmptyIffOutOfRange<T>(sorted: seq<T>, page: nat)
    ensures |Page(sorted, page)| == 0 <==> page == 0 || page > TotalPages(|sorted|)
  {
  }

  /** Pages 1 to `k`, one after the other. */
  function FirstPages<T>(sorted: seq<T>, k: nat): seq<T>
  {
    if k == 0 then [] else FirstPages(sorted, k - 1) + Page(sorted, k)
  }

  lemma {:induction false} FirstPagesArePrefix<T>(sorted: seq<T>, k: nat)
    ensures FirstPages(sorted, k) == sorted[..Min(k * PageSize, |sorted|)]
  {
    if k > 0 {
      FirstPagesArePrefix(sorted, k - 1);
      var a := Min((k - 1) * PageSize, |sorted|);
      var b := Min(k * PageSize, |sorted|);
      assert sorted[..a] + sorted[a..b] == sorted[..b];
    }
  }

  /** Reading every page in turn shows each sorted row once, in order. */
  lemma {:induction false} PagesCoverAll<T>(sorted: seq<T>)
    ensures FirstPages(sorted, TotalPages(|sorted|)) == sorted
  {
    FirstPagesArePrefix(sorted, TotalPages(|sorted|));
  }

  /** `currentProducts`: the visible rows. */
  function CurrentProducts(filtered: seq<Product>, t: TableState): (r: seq<Product>)
    ensures |r| <= PageSize
  {
    Page(SortProducts(filtered, t.field, t.direction), t.page)
  }

  /** The page number shows a page that exists: from 1, and not past the last
      page unless there are no pages at all. */
  predicate PageInRange(page: int, totalPages: nat)
  {
    1 <= page && (totalPages == 0 || page <= totalPages)
  }

  /** On a page in range the table shows "No products found" exactly when
      the filtered list is empty. */
  lemma {:induction false} NoRowsIffNoProducts(filtered: seq<Product>, t: TableState)
    requires PageInRange(t.page, TotalPages(|filtered|))
    ensures |CurrentProducts(filtered, t)| == 0 <==> |filtered| == 0
  {
    PageEmptyIffOutOfRange(SortProducts(filtered, t.field, t.direction), t.page);
  }

  /** The Previous button: disabled on page 1, otherwise one page back, not below 1. */
  function PreviousClick(page: int): (r: int)
    ensures r >= 1
    ensures page > 1 ==> r == page - 1
    ensures page <= 1 ==> r == 1
  {
    if page == 1 then page else Max(page - 1, 1)
  }

  /** The Next button: disabled on the last page or when there are no pages,
      otherwise one page on, not past the last. */
  function NextClick(page: int, totalPages: nat): (r: int)
    ensures totalPages == 0 ==> r == page
    ensures 0 < totalPages && page < totalPages ==> r == page + 1
    ensures 0 < totalPages <= page ==> r == totalPages
  {
    if page == totalPages || totalPages == 0 then page else Min(page + 1, totalPages)
  }

  /** Both buttons keep the page in range. */
  lemma {:induction false} NavigationKeepsPageInRange(page: int, totalPages: nat)
    requires PageInRange(page, totalPages)
    ensures PageInRange(PreviousClick(page), totalPages)
    ensures PageInRange(NextClick(page, totalPages), totalPages)
  {
  }

  /** Next then Previous returns to the page, unless Next was disabled. */
  lemma {:induction false} NextThenPrevious(page: int, totalPages: nat)
    requires PageInRange(page, totalPages) && page < totalPages
    ensures PreviousClick(NextClick(page, totalPages)) == page
  {
  }

  /** Previous then Next returns to the page, unless Previous was disabled. */
  lemma {:induction false} PreviousThenNext(page: int, totalPages: nat)
    requires PageInRange(page, totalPages) && 1 < page <= totalPages
    ensures NextClick(PreviousClick(page), totalPages) == page
  {
  }

  /** The effect on `filteredProducts`: any change of the list returns to page 1,
      which is in range for every list. */
  function ResetPage(t: TableState, filtered: seq<Product>): (r: TableState)
    ensures r.page == 1
    ensures PageInRange(r.page, TotalPages(|filtered|))
    ensures r.field == t.field && r.direction == t.direction
  {
    t.(page := 1)
  }

  // -------------------------------------------------------------- selection

  /** The row checkbox shows a row as selected when its id is in the selection. */
  predicate RowChecked(selected: seq<string>, p: Product)
  {
    p.id in selected
  }

  /** `handleSelectRow`: flip the row's id in the selection, so the clicked
      row's checkbox flips and every row with another id keeps its state. */
  function SelectRow(selected: seq<string>, id: string): (r: seq<string>)
    ensures forall p: Product :: p.id == id ==> (RowChecked(r, p) <==> !RowChecked(selected, p))
    ensures forall p: Product :: p.id != id ==> (RowChecked(r, p) <==> RowChecked(selected, p))
    ensures NoDuplicates(selected) ==> NoDuplicates(r)
  {
    Toggle(selected, id)
  }

  /** Clicking a row's checkbox twice restores the selection's contents. */
  lemma {:induction false} SelectRowTwice(selected: seq<string>, id: string)
    ensures forall x :: x in SelectRow(SelectRow(selected, id), id) <==> x in selected
  {
    ToggleTwice(selected, id);
  }

  predicate NotInList(ids: seq<string>, x: string)
  {
    x !in ids
  }

  function NotOnPage(pageIds: seq<string>): string -> bool
  {
    (x: string) => NotInList(pageIds, x)
  }

  /** `handleSelectAll`: drop the page's ids from the selection, then append
      them all again when the header box was ticked. */
  function SelectAll(selected: seq<string>, pageIds: seq<string>, checked: bool): (r: seq<string>)
    ensures checked ==> forall x :: x in r <==> x in selected || x in pageIds
    ensures !checked ==> forall x :: x in r <==> x in selected && x !in pageIds
    ensures Filter(r, NotOnPage(pageIds)) == Filter(selected, NotOnPage(pageIds))
  {
    var kept := Filter(selected, NotOnPage(pageIds));
    FilterMembers(selected, NotOnPage(pageIds));
    FilterAll(kept, NotOnPage(pageIds));
    if checked then
      FilterAppend(kept, pageIds, NotOnPage(pageIds));
      FilterNone(pageIds, NotOnPage(pageIds));
      kept + pageIds
    else kept
  }

  /** Ticking the header box lists each id of the page exactly once, at the
      end, and keeps a duplicate-free selection duplicate-free. */
  lemma {:induction false} SelectAllNoDuplicates(selected: seq<string>, pageIds: seq<string>)
    requires NoDuplicates(selected) && NoDuplicates(pageIds)
    ensures NoDuplicates(SelectAll(selected, pageIds, true))
    ensures NoDuplicates(SelectAll(selected, pageIds, false))
    ensures var r := SelectAll(selected, pageIds, true); r[|r| - |pageIds|..] == pageIds
  {
    var kept := Filter(selected, NotOnPage(pageIds));
    FilterNoDuplicates(selected, NotOnPage(pageIds));
    var r := kept + pageIds;
    forall i, j | 0 <= i < j < |r| ensures r[i] != r[j] {
      if i < |kept| && j >= |kept| {
        assert NotOnPage(pageIds)(kept[i]);
        assert r[j] == pageIds[j - |kept|];
      } else if i >= |kept| {
        assert r[i] == pageIds[i - |kept|] && r[j] == pageIds[j - |kept|];
      }
    }
  }

  /** `areAllSelected`: the page has rows and every one of them is selected. */
  function AreAllSelected(current: seq<Product>, selected: seq<string>): (r: bool)
    ensures r <==> |current| > 0 && forall id :: id in Ids(current) ==> id in selected
  {
    IdsMembers(current);
    |current| > 0 && forall i :: 0 <= i < |current| ==> current[i].id in selected
  }

  /** The "Clear Selection" button: deselect every row, keeping the products. */
  function ClearSelection(store: Store): (r: Store)
    ensures r.products == store.products
    ensures forall p: Product :: !RowChecked(r.selected, p)
  {
    store.(selected := [])
  }

  /** Ticking the header box of a non-empty page makes it show as ticked;
      unticking it makes it show as unticked. */
  lemma {:induction false} SelectAllTicksHeader(current: seq<Product>, selected: seq<string>)
    requires |current| > 0
    ensures AreAllSelected(current, SelectAll(selected, Ids(current), true))
    ensures !AreAllSelected(current, SelectAll(selected, Ids(current), false))
  {
    assert current[0].id == Ids(current)[0];
  }

  // ---------------------------------------------------------------- deletion

  /** The table's pending single deletion: the id whose trash icon was clicked. */
  datatype DeleteDialog = DeleteDialog(open: bool, productToDelete: Option<string>)

  /** `handleDeleteConfirm`: with a (non-empty) pending id, delete that one
      product and close the dialog; otherwise do nothing. */
  function HandleDeleteConfirm(store: Store, dialog: DeleteDialog): (r: (Store, DeleteDialog))
    ensures dialog.productToDelete.Some? && dialog.productToDelete.value != "" ==>
              && (forall p :: p in r.0.products <==> p in store.products && p.id != dialog.productToDelete.value)
              && r.0.selected == []
              && r.1 == DeleteDialog(false, None)
    ensures dialog.productToDelete.None? || dialog.productToDelete.value == "" ==> r == (store, dialog)
  {
    match dialog.productToDelete
    case Some(id) =>
      if id != "" then
        DeleteKeepsOrder(store, [id]);
        (DeleteProducts(store, [id]), DeleteDialog(false, None))
      else (store, dialog)
    case None => (store, dialog)
  }

  /** `handleBatchDeleteConfirm`: with a non-empty selection, delete every
      selected product (which also empties the selection); otherwise do nothing. */
  function HandleBatchDeleteConfirm(store: Store, dialogOpen: bool): (r: (Store, bool))
    ensures |store.selected| > 0 ==>
              && (forall p :: p in r.0.products <==> p in store.products && p.id !in store.selected)
              && r.0.selected == []
              && !r.1
    ensures |store.selected| == 0 ==> r == (store, dialogOpen)
  {
    if |store.selected| > 0 then
      DeleteKeepsOrder(store, store.selected);
      (DeleteProducts(store, store.selected), false)
    else (store, dialogOpen)
  }

  /** The bell beside a row's stock. The table keeps its own threshold, yet
      the bell marks exactly the products the low-stock card counts and the
      ones whose detail sheet does not say "In Stock". */
  function ShowsLowStockBell(p: Product): (r: bool)
    ensures r <==> IsLowStock()(p)
    ensures r <==> StatusOf(p.stock) != InStock
  {
    p.stock < LowStockThreshold
  }
}
