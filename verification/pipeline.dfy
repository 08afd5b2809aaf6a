/**
 * The browser-to-index path of a search, end to end: the form's state becomes a
 * filters object, the filters object a query string, the query string the search
 * service's request, and that request a compiled search body.
 */
module Pipeline {
  import opened Wrappers
  import opened Decimal
  import opened JsValue
  import opened Catalog
  import opened QueryBuilder
  import opened QueryEval
  import ProductService
  import QueryString
  import SearchFilters

  /** The request the search service reads from the query string `searchProducts(a)` sends. */
  function Request(a: ProductService.SearchArgs): SearchQuery {
    FromParams(ProductService.Serialize(a))
  }

  /** The request the service would read if every key carried exactly what the client decided to send for it. */
  function SentQuery(a: ProductService.SearchArgs): SearchQuery {
    SearchQuery(
      ProductService.Sent(a, QueryString.QueryKey),
      ProductService.Sent(a, QueryString.CategoryKey),
      ProductService.Sent(a, QueryString.MinPriceKey),
      ProductService.Sent(a, QueryString.MaxPriceKey),
      ProductService.Sent(a, QueryString.ConditionKey),
      ProductService.Sent(a, QueryString.LocationKey),
      ProductService.Sent(a, QueryString.PageKey),
      ProductService.Sent(a, QueryString.LimitKey))
  }

  /** Each request parameter is what the client decided to send for that key. */
  lemma RequestReadsBack(a: ProductService.SearchArgs)
    ensures Request(a) == SentQuery(a)
  {
    var ps := ProductService.Serialize(a);
    assert forall n :: QueryString.Lookup(ps, QueryString.Key(n)) == ProductService.Sent(a, n);
  }

  function FacetName(f: Facet): QueryString.ParamName {
    match f
    case Category => QueryString.CategoryKey
    case Condition => QueryString.ConditionKey
    case Location => QueryString.LocationKey
  }

  lemma SentConstraints(a: ProductService.SearchArgs, f: Facet)
    ensures Given(FacetParam(SentQuery(a), f)) <==> Truthy(ProductService.Arg(a, FacetName(f)))
    ensures Given(SentQuery(a).query) <==> Truthy(a.query)
    ensures Given(SentQuery(a).minPrice) <==> Truthy(a.minPrice)
    ensures Given(SentQuery(a).maxPrice) <==> Truthy(a.maxPrice)
  {
  }

  /** A filter the client leaves falsy reaches the service as no constraint, and a truthy one as a constraint. */
  lemma FalsyFilterIsNoConstraint(a: ProductService.SearchArgs, f: Facet)
    ensures HasTerm(Filters(Request(a)), f) <==> Truthy(ProductService.Arg(a, FacetName(f)))
    ensures Given(Request(a).query) <==> Truthy(a.query)
    ensures HasRange(Filters(Request(a))) <==> Truthy(a.minPrice) || Truthy(a.maxPrice)
  {
    RequestReadsBack(a);
    SentConstraints(a, f);
  }

  lemma SentDefaultPaging(a: ProductService.SearchArgs)
    requires !Truthy(a.page) && !Truthy(a.limit)
    ensures PageNumber(SentQuery(a)) == Finite(1)
    ensures LimitNumber(SentQuery(a)) == Finite(20)
  {
    var pageText := Text(ProductService.DefaultPage);
    var limitText := Text(ProductService.DefaultLimit);
    assert SentQuery(a).page == Some(pageText) && SentQuery(a).limit == Some(limitText);
  }

  /** Page and limit left unset by the caller mean the first page of twenty results. */
  lemma DefaultPaging(a: ProductService.SearchArgs)
    requires !Truthy(a.page) && !Truthy(a.limit)
    ensures Compile(Request(a)).from == Finite(0)
    ensures Compile(Request(a)).size == Finite(20)
  {
    RequestReadsBack(a);
    SentDefaultPaging(a);
  }

  /** The request a submitted form produces. */
  function FormRequest(s: SearchFilters.FormState): SearchQuery {
    Request(SearchFilters.HandleSubmit(s))
  }

  /** The form never sends a page, so every search from the form asks for the first twenty results. */
  lemma FormSearchesFirstPage(s: SearchFilters.FormState)
    ensures Compile(FormRequest(s)).from == Finite(0)
    ensures Compile(FormRequest(s)).size == Finite(20)
    ensures Compile(FormRequest(s)).sort == [SortKey("createdAt", Desc)]
  {
    DefaultPaging(SearchFilters.HandleSubmit(s));
  }

  /** A request without constraints on the first page of twenty compiles to match-all. */
  lemma UnconstrainedCompiles(q: SearchQuery)
    requires !Given(q.query) && !Given(q.category) && !Given(q.condition) && !Given(q.location)
    requires !Given(q.minPrice) && !Given(q.maxPrice)
    requires PageNumber(q) == Finite(1) && LimitNumber(q) == Finite(20)
    ensures Compile(q) == SearchBody([MatchAll], [], Finite(0), Finite(20), [SortKey("createdAt", Desc)])
  {
  }

  /** The untouched form asks for everything, newest first. */
  lemma InitialFormMatchesAll()
    ensures Compile(FormRequest(SearchFilters.Initial())) == SearchBody([MatchAll], [], Finite(0), Finite(20), [SortKey("createdAt", Desc)])
  {
    var s := SearchFilters.Initial();
    var a := SearchFilters.HandleSubmit(s);
    RequestReadsBack(a);
    SentTextFields(a, s);
    SentDefaultPaging(a);
    UnconstrainedCompiles(SentQuery(a));
  }

  /** What a product must satisfy to answer the form, stated on the form's own fields. */
  predicate FormWanted(p: Product, s: SearchFilters.FormState, text: TextMatch) {
    && (s.query != "" ==> text(s.query, p))
    && (s.category != "" ==> p.category == s.category)
    && (s.condition != "" ==> p.condition == s.condition)
    && (s.location != "" ==> p.location == s.location)
    && (s.minPrice != "" && ParseNumber(s.minPrice).Finite? ==> p.price >= ParseNumber(s.minPrice).v)
    && (s.maxPrice != "" && ParseNumber(s.maxPrice).Finite? ==> p.price <= ParseNumber(s.maxPrice).v)
  }

  /** A text field reaches the service when it is non-empty, verbatim. */
  function FieldParam(v: string): Option<string> {
    if v != "" then Some(v) else None
  }

  lemma SentTextFields(a: ProductService.SearchArgs, s: SearchFilters.FormState)
    requires a.query == Str(s.query) && a.category == Str(s.category)
    requires a.minPrice == Str(s.minPrice) && a.maxPrice == Str(s.maxPrice)
    requires a.condition == Str(s.condition) && a.location == Str(s.location)
    ensures SentQuery(a).query == FieldParam(s.query)
    ensures SentQuery(a).category == FieldParam(s.category)
    ensures SentQuery(a).minPrice == FieldParam(s.minPrice)
    ensures SentQuery(a).maxPrice == FieldParam(s.maxPrice)
    ensures SentQuery(a).condition == FieldParam(s.condition)
    ensures SentQuery(a).location == FieldParam(s.location)
  {
  }

  /** The request of a submitted form carries each non-empty field as its text. */
  lemma FormRequestFields(s: SearchFilters.FormState)
    ensures FormRequest(s).query == FieldParam(s.query)
    ensures FormRequest(s).category == FieldParam(s.category)
    ensures FormRequest(s).minPrice == FieldParam(s.minPrice)
    ensures FormRequest(s).maxPrice == FieldParam(s.maxPrice)
    ensures FormRequest(s).condition == FieldParam(s.condition)
    ensures FormRequest(s).location == FieldParam(s.location)
  {
    var a := SearchFilters.HandleSubmit(s);
    RequestReadsBack(a);
    SentTextFields(a, s);
  }

  /** The index returns a product for a submitted form exactly when the product meets every filled-in field. */
  lemma FormSearchIsConjunction(s: SearchFilters.FormState, p: Product, text: TextMatch)
    ensures Eligible(p, Compile(FormRequest(s)), text) <==> FormWanted(p, s, text)
  {
    var q := FormRequest(s);
    FormRequestFields(s);
    CompiledQueryIsConjunction(q, p, text);
    WantedFields(q, s, p, text);
  }

  lemma WantedFields(q: SearchQuery, s: SearchFilters.FormState, p: Product, text: TextMatch)
    requires q.query == FieldParam(s.query) && q.category == FieldParam(s.category)
    requires q.minPrice == FieldParam(s.minPrice) && q.maxPrice == FieldParam(s.maxPrice)
    requires q.condition == FieldParam(s.condition) && q.location == FieldParam(s.location)
    ensures Wanted(p, q, text) <==> FormWanted(p, s, text)
  {
  }
}
