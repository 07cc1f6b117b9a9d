/** The add-category dialog: a single text input whose submit rejects a blank
    name with an error, and otherwise passes the trimmed name on, empties the
    input and closes the dialog. */
module CategoryForm {
  import opened Collections
  import opened Text

  const CategoryNameRequired := "Category name is required"

  /** The input's text and the error shown under it ("" for none). */
  datatype CategoryFormState = CategoryFormState(categoryName: string, error: string)

  /** The state after a submit, the name handed to `addCategory` if it was
      called, and whether the dialog closed. */
  datatype CategorySubmit = CategorySubmit(state: CategoryFormState, added: Option<string>, closed: bool)

  /** `handleSubmit`. */
  function HandleSubmit(s: CategoryFormState): (r: CategorySubmit)
    ensures IsBlank(s.categoryName) ==>
              r == CategorySubmit(s.(error := CategoryNameRequired), None, false)
    ensures !IsBlank(s.categoryName) ==>
              && r.added == Some(Trim(s.categoryName))
              && r.state.categoryName == ""
              && r.closed
  {
    if IsBlank(s.categoryName) then CategorySubmit(s.(error := CategoryNameRequired), None, false)
    else CategorySubmit(s.(categoryName := ""), Some(Trim(s.categoryName)), true)
  }

  /** Whatever `addCategory` receives is non-blank and already trimmed, and
      it is what the user typed without the surrounding whitespace. */
  lemma {:induction false} AddedNameIsTrimmed(s: CategoryFormState)
    ensures var r := HandleSubmit(s);
            r.added.Some? ==>
              && !IsBlank(r.added.value)
              && Trim(r.added.value) == r.added.value
              && exists i :: SurroundedByWhitespace(s.categoryName, r.added.value, i)
  {
    TrimIdempotent(s.categoryName);
  }

  /** A whitespace-only name is rejected. */
  lemma {:induction false} WhitespaceNameRejected(s: CategoryFormState)
    requires forall k :: 0 <= k < |s.categoryName| ==> IsWhitespace(s.categoryName[k])
    ensures HandleSubmit(s).added.None? && !HandleSubmit(s).closed
    ensures HandleSubmit(s).state.error == CategoryNameRequired
  {
    BlankIffAllWhitespace(s.categoryName);
  }

  /** The input's `onChange`: take the new text and clear any error. */
  function TypeName(s: CategoryFormState, text: string): (r: CategoryFormState)
    ensures r.categoryName == text && r.error == ""
  {
    CategoryFormState(text, "")
  }

  /** After a rejected submit, typing removes the error again. */
  lemma {:induction false} TypingClearsRejection(s: CategoryFormState, text: string)
    ensures HandleSubmit(s).state.error != "" ==> TypeName(HandleSubmit(s).state, text).error == ""
    ensures IsBlank(s.categoryName) ==> HandleSubmit(s).state.error != ""
  {
  }

  /** What a submit does when `addCategory` is missing from the context: a
      blank name is rejected as usual, but for any other name the call
      throws before the input is emptied or the dialog closed. */
  datatype SubmitOutcome = Completed(result: CategorySubmit) | Threw(state: CategoryFormState)

  /** `handleSubmit` against the context the code base provides, which has
      no `addCategory`: no name is ever added and the dialog never closes on
      its own. */
  function HandleSubmitAsWritten(s: CategoryFormState): (r: SubmitOutcome)
    ensures r.Threw? <==> !IsBlank(s.categoryName)
    ensures r.Threw? ==> r.state == s
    ensures r.Completed? ==> r.result.added.None? && !r.result.closed
  {
    if IsBlank(s.categoryName) then Completed(HandleSubmit(s))
    else Threw(s)
  }

  /** A submit with a visible name: the intended submit adds "Garden" and
      closes, the one as written throws and leaves everything as it was. */
  lemma AsWrittenLosesTheCategory()
    ensures HandleSubmit(CategoryFormState(" Garden ", "")).added == Some("Garden")
    ensures HandleSubmit(CategoryFormState(" Garden ", "")).closed
    ensures HandleSubmitAsWritten(CategoryFormState(" Garden ", "")) == Threw(CategoryFormState(" Garden ", ""))
  {
    var s := CategoryFormState(" Garden ", "");
    assert !IsWhitespace(s.categoryName[1]);
    BlankIffAllWhitespace(s.categoryName);
    assert SkipLeading(s.categoryName, 1) == 1;
    assert SkipLeading(s.categoryName, 0) == 1;
    assert SkipTrailing(s.categoryName, 1, 7) == 7;
    assert SkipTrailing(s.categoryName, 1, 8) == 7;
    assert s.categoryName[1..7] == "Garden";
  }
}
