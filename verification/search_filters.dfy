/**
 * The search form: six text fields, each bound to one control, edited one change
 * event at a time and handed over whole when the form is submitted.
 */
module SearchFilters {
  import opened JsValue
  import ProductService
  import QueryString

  datatype Field = Query | Category | MinPrice | MaxPrice | Condition | Location

  datatype FormState = FormState(
    query: string,
    category: string,
    minPrice: string,
    maxPrice: string,
    condition: string,
    location: string)

  function Get(s: FormState, f: Field): string {
    match f
    case Query => s.query
    case Category => s.category
    case MinPrice => s.minPrice
    case MaxPrice => s.maxPrice
    case Condition => s.condition
    case Location => s.location
  }

  /** The state the form mounts with. */
  function Initial(): (s: FormState)
    ensures forall f :: Get(s, f) == ""
  {
    FormState("", "", "", "", "", "")
  }

  /** `handleChange`: the control named `f` now holds `v`; every other field keeps its value. */
  function HandleChange(s: FormState, f: Field, v: string): (r: FormState)
    ensures Get(r, f) == v
    ensures forall g :: g != f ==> Get(r, g) == Get(s, g)
  {
    match f
    case Query => s.(query := v)
    case Category => s.(category := v)
    case MinPrice => s.(minPrice := v)
    case MaxPrice => s.(maxPrice := v)
    case Condition => s.(condition := v)
    case Location => s.(location := v)
  }

  /** Two states are equal exactly when they agree on every field. */
  lemma FieldsDetermineState(s: FormState, t: FormState)
    ensures s == t <==> forall f :: Get(s, f) == Get(t, f)
  {
    if forall f :: Get(s, f) == Get(t, f) {
      assert Get(s, Query) == Get(t, Query) && Get(s, Category) == Get(t, Category);
      assert Get(s, MinPrice) == Get(t, MinPrice) && Get(s, MaxPrice) == Get(t, MaxPrice);
      assert Get(s, Condition) == Get(t, Condition) && Get(s, Location) == Get(t, Location);
    }
  }

  /** Writing back a field's current value changes nothing; a later write to a field overrides an earlier one. */
  lemma ChangeLaws(s: FormState, f: Field, v: string, w: string)
    ensures HandleChange(s, f, Get(s, f)) == s
    ensures HandleChange(HandleChange(s, f, v), f, w) == HandleChange(s, f, w)
  {
    FieldsDetermineState(HandleChange(s, f, Get(s, f)), s);
    FieldsDetermineState(HandleChange(HandleChange(s, f, v), f, w), HandleChange(s, f, w));
  }

  /** Changes to different fields commute. */
  lemma ChangesCommute(s: FormState, f: Field, v: string, g: Field, w: string)
    requires f != g
    ensures HandleChange(HandleChange(s, f, v), g, w) == HandleChange(HandleChange(s, g, w), f, v)
  {
    FieldsDetermineState(HandleChange(HandleChange(s, f, v), g, w), HandleChange(HandleChange(s, g, w), f, v));
  }

  /** The option values of the three drop-downs; the empty value stands for "any". */
  const CategoryOptions: set<string> := {"", "electronics", "furniture", "clothing", "sports", "books", "home"}
  const ConditionOptions: set<string> := {"", "excellent", "good", "fair"}
  const LocationOptions: set<string> := {"", "Paris", "Lyon", "Marseille", "Toulouse", "Nice", "Bordeaux", "Grenoble"}

  /** A value a change event from control `f` can carry: a select offers only its options, an input anything. */
  predicate FromControl(f: Field, v: string) {
    match f
    case Category => v in CategoryOptions
    case Condition => v in ConditionOptions
    case Location => v in LocationOptions
    case _ => true
  }

  predicate SelectsInVocabulary(s: FormState) {
    FromControl(Category, s.category) && FromControl(Condition, s.condition) && FromControl(Location, s.location)
  }

  /** A change event from one of the form's controls keeps every drop-down on one of its options. */
  lemma ChangeKeepsVocabulary(s: FormState, f: Field, v: string)
    requires SelectsInVocabulary(s) && FromControl(f, v)
    ensures SelectsInVocabulary(HandleChange(s, f, v))
  {
  }

  /** The filters object a field contributes to. */
  function ArgName(f: Field): QueryString.ParamName {
    match f
    case Query => QueryString.QueryKey
    case Category => QueryString.CategoryKey
    case MinPrice => QueryString.MinPriceKey
    case MaxPrice => QueryString.MaxPriceKey
    case Condition => QueryString.ConditionKey
    case Location => QueryString.LocationKey
  }

  /** `handleSubmit`: the filters object handed to the search; it has no page and no limit. */
  function HandleSubmit(s: FormState): (a: ProductService.SearchArgs)
    ensures forall f :: ProductService.Arg(a, ArgName(f)) == Str(Get(s, f))
    ensures a.page == Undefined && a.limit == Undefined
  {
    ProductService.SearchArgs(Str(s.query), Str(s.category), Str(s.minPrice), Str(s.maxPrice),
      Str(s.condition), Str(s.location), Undefined, Undefined)
  }
}
