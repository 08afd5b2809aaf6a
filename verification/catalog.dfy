/** The product document shared by the search service, the scraper and the client. */
module Catalog {
  import opened Wrappers

  /**
   * One product listing. `id` may be missing from a posted body; the other fields are
   * taken as present. Prices are whole euros; `createdAt` is a timestamp in milliseconds.
   */
  datatype Product = Product(
    id: Option<string>,
    title: string,
    description: string,
    price: int,
    category: string,
    condition: string,
    location: string,
    imageUrl: string,
    source: string,
    url: string,
    createdAt: int)

  /** The three exact-match facets a search can filter on, in the order the query builder checks them. */
  datatype Facet = Category | Condition | Location

  function FacetValue(p: Product, f: Facet): string {
    match f
    case Category => p.category
    case Condition => p.condition
    case Location => p.location
  }
}

/** A query string as an ordered list of key/value pairs, and how the server reads one key. */
module QueryString {
  import opened Wrappers

  type Params = seq<(string, string)>

  /** The parameters of `GET /api/search`. */
  datatype ParamName = QueryKey | CategoryKey | MinPriceKey | MaxPriceKey | ConditionKey | LocationKey | PageKey | LimitKey

  function Key(n: ParamName): string {
    match n
    case QueryKey => "query"
    case CategoryKey => "category"
    case MinPriceKey => "minPrice"
    case MaxPriceKey => "maxPrice"
    case ConditionKey => "condition"
    case LocationKey => "location"
    case PageKey => "page"
    case LimitKey => "limit"
  }

  lemma KeyInjective(n: ParamName, m: ParamName)
    ensures Key(n) == Key(m) ==> n == m
  {
  }

  predicate HasKey(ps: Params, key: string) {
    exists i :: 0 <= i < |ps| && ps[i].0 == key
  }

  /** `req.query[key]` for a key that occurs at most once: the value of its first occurrence. */
  function Lookup(ps: Params, key: string): (r: Option<string>)
    ensures r.Some? <==> HasKey(ps, key)
    ensures r.Some? ==> exists i :: 0 <= i < |ps| && ps[i] == (key, r.value)
                                    && forall j :: 0 <= j < i ==> ps[j].0 != key
  {
    if ps == [] then None
    else if ps[0].0 == key then Some(ps[0].1)
    else
      Lookup(ps[1..], key)
  }
}
