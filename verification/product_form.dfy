/** The add/edit product dialog: the form's state and how it is reset when the
    dialog opens, the four validation rules with their messages, the submit
    that either stores the errors or hands the fields to `updateProduct` or
    `addProduct`, and the per-field clearing of errors while typing. */
module ProductForm {
  import opened Collections
  import opened Text
  import opened MockData
  import opened ProductContext

  datatype Field = NameField | CategoryField | PriceField | StockField

  /** The form's values. The price is in cents; the stock is the number the
      input holds, which need not be whole. `id` is only set when editing. */
  datatype FormData = FormData(id: Option<string>, name: string, category: string, price: int, stock: real)

  /** The values together with the errors currently shown, keyed by field. */
  datatype FormState = FormState(data: FormData, errors: map<Field, string>)

  /** The message each rule shows. */
  function Message(f: Field): string
  {
    match f
    case NameField => "Product name is required"
    case CategoryField => "Category is required"
    case PriceField => "Price must be greater than 0"
    case StockField => "Stock must be a non-negative integer"
  }

  predicate IsWhole(x: real)
  {
    x == x.Floor as real
  }

  /** A product every rule accepts, stated on the stored record. */
  predicate ValidProduct(p: Product)
  {
    !IsBlank(p.name) && p.category != "" && p.price > 0 && p.stock >= 0
  }

  /** `validateForm`: one entry per broken rule, each with its message. */
  function ValidateForm(d: FormData): (errors: map<Field, string>)
    ensures NameField in errors <==> IsBlank(d.name)
    ensures CategoryField in errors <==> d.category == ""
    ensures PriceField in errors <==> d.price <= 0
    ensures StockField in errors <==> d.stock < 0.0 || !IsWhole(d.stock)
    ensures forall f :: f in errors ==> errors[f] == Message(f) && errors[f] != ""
  {
    var e1 := if IsBlank(d.name) then map[NameField := Message(NameField)] else map[];
    var e2 := if d.category == "" then e1[CategoryField := Message(CategoryField)] else e1;
    var e3 := if d.price <= 0 then e2[PriceField := Message(PriceField)] else e2;
    if d.stock < 0.0 || !IsWhole(d.stock) then e3[StockField := Message(StockField)] else e3
  }

  /** The form holding a stored product's values. */
  function FormOf(p: Product): FormData
  {
    FormData(Some(p.id), p.name, p.category, p.price, p.stock as real)
  }

  /** The form accepts a stored product's values exactly when the product is valid. */
  lemma {:induction false} ValidateAgreesWithValidProduct(p: Product)
    ensures |ValidateForm(FormOf(p))| == 0 <==> ValidProduct(p)
  {
    var errors := ValidateForm(FormOf(p));
    assert (p.stock as real).Floor == p.stock;
    if |errors| == 0 {
      assert errors.Keys == {};
    } else {
      var f :| f in errors;
    }
  }

  /** The effect that runs when the dialog opens: the edited product's values,
      or a blank form on the first category, and no errors. */
  function OpenForm(editing: Option<Product>, categories: seq<string>): (r: FormState)
    ensures r.errors == map[]
    ensures editing.Some? ==> r.data == FormOf(editing.value)
    ensures editing.None? ==> r.data.id.None? && r.data.name == "" && r.data.price == 0 && r.data.stock == 0.0
    ensures editing.None? && |categories| > 0 ==> r.data.category == categories[0]
  {
    match editing
    case Some(p) => FormState(FormOf(p), map[])
    case None =>
      // `categories[0]` of an empty list is `undefined`, which the category rule rejects.
      FormState(FormData(None, "", if |categories| > 0 then categories[0] else "", 0, 0.0), map[])
  }

  /** A blank form submitted as it opens is rejected for the name and the
      price, never for the stock. */
  lemma {:induction false} BlankFormRejected(categories: seq<string>)
    ensures var errors := ValidateForm(OpenForm(None, categories).data);
            NameField in errors && PriceField in errors && StockField !in errors
  {
    BlankIffAllWhitespace("");
  }

  /** Which context call a submit made. */
  datatype Dispatch = Rejected | Updated(product: Product) | Added(fields: NewProduct)

  /** The store, the form and whether the dialog closed, after a submit. */
  datatype SubmitResult = SubmitResult(store: Store, form: FormState, closed: bool, dispatch: Dispatch)

  /** `handleSubmit`. `editing` says whether the dialog was opened on a
      product; `newId` stands for the id `addProduct` would draw. */
  function HandleSubmit(store: Store, form: FormState, editing: bool, newId: string): (r: SubmitResult)
    ensures |ValidateForm(form.data)| > 0 ==>
              && r.dispatch == Rejected
              && r.store == store
              && r.form.errors == ValidateForm(form.data)
              && r.form.data == form.data
              && !r.closed
    ensures |ValidateForm(form.data)| == 0 ==> r.closed && !r.dispatch.Rejected?
    ensures r.dispatch.Updated? ==>
              && editing && form.data.id == Some(r.dispatch.product.id) && r.dispatch.product.id != ""
              && r.dispatch.product.name == form.data.name
              && r.dispatch.product.category == form.data.category
              && r.dispatch.product.price == form.data.price
              && r.dispatch.product.stock as real == form.data.stock
              && ValidProduct(r.dispatch.product)
              && r.store == UpdateProduct(store, r.dispatch.product)
    ensures r.dispatch.Added? ==>
              && !(editing && form.data.id.Some? && form.data.id.value != "")
              && r.dispatch.fields == NewProduct(form.data.name, form.data.category, form.data.price, r.dispatch.fields.stock)
              && r.dispatch.fields.stock as real == form.data.stock
              && r.store == AddProduct(store, r.dispatch.fields, newId)
              && ValidProduct(r.store.products[|store.products|])
  {
    var errors := ValidateForm(form.data);
    if |errors| > 0 then
      SubmitResult(store, form.(errors := errors), false, Rejected)
    else
      assert NameField !in errors && CategoryField !in errors && PriceField !in errors && StockField !in errors;
      var d := form.data;
      var stock := d.stock.Floor;
      if editing && d.id.Some? && d.id.value != "" then
        var p := Product(d.id.value, d.name, d.category, d.price, stock);
        SubmitResult(UpdateProduct(store, p), form, true, Updated(p))
      else
        var fields := NewProduct(d.name, d.category, d.price, stock);
        SubmitResult(AddProduct(store, fields, newId), form, true, Added(fields))
  }

  /** Opening the dialog on a stored, valid product and saving it unchanged
      leaves the product list as it was. */
  lemma {:induction false} SaveUnchangedIsNoOp(store: Store, i: nat, categories: seq<string>, newId: string)
    requires i < |store.products| && UniqueIds(store.products) && ValidProduct(store.products[i])
    requires store.products[i].id != ""
    ensures HandleSubmit(store, OpenForm(Some(store.products[i]), categories), true, newId).store.products
            == store.products
  {
    var p := store.products[i];
    ValidateAgreesWithValidProduct(p);
    var r := HandleSubmit(store, OpenForm(Some(p), categories), true, newId);
    assert (p.stock as real).Floor == p.stock;
    assert r.dispatch.product == p;
    var ps := UpdateProduct(store, p).products;
    forall j | 0 <= j < |store.products| ensures ps[j] == store.products[j] {
      if store.products[j].id == p.id {
        assert Pairwise(store.products, IdsDiffer);
        assert j == i;
      }
    }
  }

  /** A product stored with an empty id cannot be edited: saving its dialog
      adds a copy under a new id instead of updating it. */
  lemma {:induction false} SaveWithEmptyIdAdds(store: Store, p: Product, categories: seq<string>, newId: string)
    requires ValidProduct(p) && p.id == ""
    ensures var r := HandleSubmit(store, OpenForm(Some(p), categories), true, newId);
            r.dispatch.Added? && |r.store.products| == |store.products| + 1
  {
    ValidateAgreesWithValidProduct(p);
  }

  /** One keystroke or selection. A number input carries what `parseFloat` or
      `parseInt` made of the text, `None` for text that is not a number. */
  datatype Edit =
    | EditName(text: string)
    | SelectCategory(category: string)
    | EditPrice(parsed: Option<int>)
    | EditStock(parsed: Option<int>)

  function FieldOf(e: Edit): Field
  {
    match e
    case EditName(_) => NameField
    case SelectCategory(_) => CategoryField
    case EditPrice(_) => PriceField
    case EditStock(_) => StockField
  }

  /** `x || 0` on a parsed number: text that is not a number becomes 0. */
  function OrZero(parsed: Option<int>): int
  {
    match parsed
    case None => 0
    case Some(n) => n
  }

  /** `handleChange` and `handleSelectChange`: store the new value and drop
      that field's error when one is shown. */
  function ApplyEdit(form: FormState, e: Edit): (r: FormState)
    ensures forall f :: f != FieldOf(e) ==> (f in r.errors <==> f in form.errors)
    ensures forall f :: f != FieldOf(e) && f in r.errors ==> r.errors[f] == form.errors[f]
    ensures FieldOf(e) in r.errors ==> FieldOf(e) in form.errors && form.errors[FieldOf(e)] == ""
    ensures r.data.id == form.data.id
    ensures FieldOf(e) != NameField ==> r.data.name == form.data.name
    ensures FieldOf(e) != CategoryField ==> r.data.category == form.data.category
    ensures FieldOf(e) != PriceField ==> r.data.price == form.data.price
    ensures FieldOf(e) != StockField ==> r.data.stock == form.data.stock
    ensures e.EditName? ==> r.data.name == e.text
    ensures e.SelectCategory? ==> r.data.category == e.category
    ensures e.EditPrice? ==> r.data.price == OrZero(e.parsed)
    ensures e.EditStock? ==> r.data.stock == OrZero(e.parsed) as real
  {
    var d := form.data;
    var data :=
      match e
      case EditName(text) => d.(name := text)
      case SelectCategory(c) => d.(category := c)
      case EditPrice(parsed) => d.(price := OrZero(parsed))
      case EditStock(parsed) => d.(stock := OrZero(parsed) as real);
    var f := FieldOf(e);
    var errors := if f in form.errors && form.errors[f] != "" then form.errors - {f} else form.errors;
    FormState(data, errors)
  }

  /** After a rejected submit, editing a field clears exactly that field's
      error: the errors shown are the other rules the last submit broke. */
  lemma {:induction false} EditClearsOnlyItsError(store: Store, form: FormState, editing: bool, newId: string, e: Edit)
    requires |ValidateForm(form.data)| > 0
    ensures var rejected := HandleSubmit(store, form, editing, newId).form;
            ApplyEdit(rejected, e).errors == ValidateForm(form.data) - {FieldOf(e)}
  {
    var errors := ValidateForm(form.data);
    var f := FieldOf(e);
    var rejected := HandleSubmit(store, form, editing, newId).form;
    assert rejected.errors == errors;
    if f in errors {
      assert errors[f] != "";
    } else {
      assert errors - {f} == errors;
    }
  }

  /** Text that is not a number in the price box sets the price to 0, which
      the price rule rejects; in the stock box it sets the stock to 0, which
      the stock rule accepts. */
  lemma {:induction false} UnparsedNumbers(form: FormState)
    ensures PriceField in ValidateForm(ApplyEdit(form, EditPrice(None)).data)
    ensures StockField !in ValidateForm(ApplyEdit(form, EditStock(None)).data)
  {
  }
}
