/** The free-text search box: on submit it normalises the typed term and
    replaces `filteredProducts` with the products whose lower-cased name,
    lower-cased category or rendered price contains it. */
module SearchBar {
  import opened Collections
  import opened Text
  import opened MockData

  /** `searchTerm.toLowerCase().trim()`. */
  function NormalizeTerm(searchTerm: string): (term: string)
    ensures |term| == 0 || (!IsWhitespace(term[0]) && !IsWhitespace(term[|term| - 1]))
    ensures exists i :: SurroundedByWhitespace(ToLower(searchTerm), term, i)
  {
    Trim(ToLower(searchTerm))
  }

  /** The normalised term is a stretch of the lower-cased input, so it is no
      longer than the input and holds no upper-case ASCII letter. */
  lemma {:induction false} NormalizedIsLowerCase(searchTerm: string)
    ensures |NormalizeTerm(searchTerm)| <= |searchTerm|
    ensures forall k :: 0 <= k < |NormalizeTerm(searchTerm)| ==> !('A' <= NormalizeTerm(searchTerm)[k] <= 'Z')
  {
    var lower := ToLower(searchTerm);
    var term := NormalizeTerm(searchTerm);
    var i :| SurroundedByWhitespace(lower, term, i);
    forall k | 0 <= k < |term| ensures !('A' <= term[k] <= 'Z') {
      assert term[k] == lower[i + k] == LowerChar(searchTerm[i + k]);
      LowerCharIsNotUpper(searchTerm[i + k]);
    }
  }

  /** One product against a normalised term: any of the three fields contains it. */
  predicate MatchesTerm(p: Product, term: string)
  {
    || Contains(ToLower(p.name), term)
    || Contains(ToLower(p.category), term)
    || Contains(PriceString(p.price), term)
  }

  function MatchesTermOf(term: string): Product -> bool
  {
    (p: Product) => MatchesTerm(p, term)
  }

  /** `handleSearch`: the list the search writes into `filteredProducts`. A
      blank term shows every product; otherwise only the matching ones, in
      the store's order. */
  function Search(products: seq<Product>, searchTerm: string): (r: seq<Product>)
    ensures |r| <= |products|
    ensures forall i :: 0 <= i < |r| ==> MatchesTerm(r[i], NormalizeTerm(searchTerm))
    ensures NormalizeTerm(searchTerm) == "" ==> r == products
  {
    var term := NormalizeTerm(searchTerm);
    if term == "" then products else Filter(products, MatchesTermOf(term))
  }

  /** Every string contains the empty string. */
  lemma {:induction false} ContainsEmpty(s: string)
    ensures Contains(s, "")
  {
  }

  /** The blank-term shortcut agrees with the general filter: with an empty
      term every product would match anyway. So the search result is always
      the filter by the normalised term. */
  lemma {:induction false} SearchIsFilter(products: seq<Product>, searchTerm: string)
    ensures Search(products, searchTerm) == Filter(products, MatchesTermOf(NormalizeTerm(searchTerm)))
  {
    var term := NormalizeTerm(searchTerm);
    if term == "" {
      forall i | 0 <= i < |products| ensures MatchesTerm(products[i], term) {
        ContainsEmpty(ToLower(products[i].name));
      }
      FilterAll(products, MatchesTermOf(term));
    }
  }

  /** When every price is a whole number of dollars less one cent,
      searching for "99" shows every product, since each price renders
      with "99" after the point. */
  lemma {:induction false} SearchFor99KeepsAll(products: seq<Product>)
    requires forall i :: 0 <= i < |products| ==> products[i].price >= 0 && products[i].price % 100 == 99
    ensures Search(products, "99") == products
  {
    assert NormalizeTerm("99") == "99";
    forall i | 0 <= i < |products| ensures MatchesTerm(products[i], "99") {
      PriceEndingIn99(products[i].price);
    }
    FilterAll(products, MatchesTermOf("99"));
  }

  /** The result is a subsequence of the products and holds exactly the
      products that match the normalised term. */
  lemma {:induction false} SearchExact(products: seq<Product>, searchTerm: string)
    ensures IsSubseq(Search(products, searchTerm), products)
    ensures forall p :: p in Search(products, searchTerm) <==>
                        p in products && MatchesTerm(p, NormalizeTerm(searchTerm))
  {
    var term := NormalizeTerm(searchTerm);
    SearchIsFilter(products, searchTerm);
    FilterIsSubseq(products, MatchesTermOf(term));
    FilterMembers(products, MatchesTermOf(term));
  }

  /** Searching the search result again with the same term changes nothing. */
  lemma {:induction false} SearchIdempotent(products: seq<Product>, searchTerm: string)
    ensures Search(Search(products, searchTerm), searchTerm) == Search(products, searchTerm)
  {
    var once := Search(products, searchTerm);
    SearchIsFilter(products, searchTerm);
    SearchIsFilter(once, searchTerm);
    FilterAll(once, MatchesTermOf(NormalizeTerm(searchTerm)));
  }

  /** The search is case-insensitive in the term: typing it in upper or lower
      case finds the same products. */
  lemma {:induction false} SearchIgnoresCase(products: seq<Product>, searchTerm: string)
    ensures Search(products, ToUpper(searchTerm)) == Search(products, searchTerm)
    ensures Search(products, ToLower(searchTerm)) == Search(products, searchTerm)
  {
    LowerOfUpper(searchTerm);
    ToLowerIdempotent(searchTerm);
  }

  /** Typing a product's full name finds that product. */
  lemma {:induction false} SearchByNameFindsIt(products: seq<Product>, p: Product)
    requires p in products
    ensures p in Search(products, p.name)
  {
    var lower := ToLower(p.name);
    var term := NormalizeTerm(p.name);
    var i :| SurroundedByWhitespace(lower, term, i);
    assert OccursAt(lower, term, i);
    ContainsIffOccurs(lower, term);
    SearchExact(products, p.name);
  }

  /** Typing a product's category finds that product. */
  lemma {:induction false} SearchByCategoryFindsIt(products: seq<Product>, p: Product)
    requires p in products
    ensures p in Search(products, p.category)
  {
    var lower := ToLower(p.category);
    var term := NormalizeTerm(p.category);
    var i :| SurroundedByWhitespace(lower, term, i);
    assert OccursAt(lower, term, i);
    ContainsIffOccurs(lower, term);
    SearchExact(products, p.category);
  }

  /** The search box's state together with the list it last wrote. */
  datatype SearchState = SearchState(searchTerm: string, filtered: seq<Product>)

  /** `handleSearch` on the whole state: it keeps the typed term and writes
      the search over the store's products, whatever list was shown before. */
  function HandleSearch(state: SearchState, products: seq<Product>): (r: SearchState)
    ensures r.searchTerm == state.searchTerm
    ensures IsSubseq(r.filtered, products)
    ensures forall p :: p in r.filtered <==> p in products && MatchesTerm(p, NormalizeTerm(state.searchTerm))
  {
    SearchExact(products, state.searchTerm);
    SearchState(state.searchTerm, Search(products, state.searchTerm))
  }

  /** Two searches never compose: after a second search the list shown is
      the one that search gives on its own, from any earlier state. */
  lemma {:induction false} LastSearchWins(state: SearchState, other: SearchState, products: seq<Product>, searchTerm: string)
    ensures HandleSearch(HandleSearch(state, products).(searchTerm := searchTerm), products).filtered
            == HandleSearch(other.(searchTerm := searchTerm), products).filtered
  {
  }

  /** `handleClear`: empty the box and show every product, which is exactly
      what submitting an empty search would show. */
  function HandleClear(products: seq<Product>): (r: SearchState)
    ensures r.searchTerm == ""
    ensures r.filtered == Search(products, r.searchTerm)
    ensures forall p :: p in r.filtered <==> p in products
  {
    SearchState("", products)
  }
}
