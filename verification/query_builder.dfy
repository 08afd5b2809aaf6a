/**
 * The search endpoint's query compiler: query-string inputs become a boolean query
 * (one must clause, a list of filter clauses), a paging window and a fixed sort.
 */
module QueryBuilder {
  import opened Wrappers
  import opened Decimal
  import opened Catalog
  import QueryString

  /** The endpoint's inputs as Express hands them over: each key is absent or a string. */
  datatype SearchQuery = SearchQuery(
    query: Option<string>,
    category: Option<string>,
    minPrice: Option<string>,
    maxPrice: Option<string>,
    condition: Option<string>,
    location: Option<string>,
    page: Option<string>,
    limit: Option<string>)

  /** Reads the eight keys the handler destructures out of `req.query`. */
  function FromParams(ps: QueryString.Params): SearchQuery {
    SearchQuery(
      QueryString.Lookup(ps, QueryString.Key(QueryString.QueryKey)),
      QueryString.Lookup(ps, QueryString.Key(QueryString.CategoryKey)),
      QueryString.Lookup(ps, QueryString.Key(QueryString.MinPriceKey)),
      QueryString.Lookup(ps, QueryString.Key(QueryString.MaxPriceKey)),
      QueryString.Lookup(ps, QueryString.Key(QueryString.ConditionKey)),
      QueryString.Lookup(ps, QueryString.Key(QueryString.LocationKey)),
      QueryString.Lookup(ps, QueryString.Key(QueryString.PageKey)),
      QueryString.Lookup(ps, QueryString.Key(QueryString.LimitKey)))
  }

  /** JavaScript truthiness of a query-string value: present and not the empty string. */
  predicate Given(v: Option<string>) {
    v.Some? && v.value != ""
  }

  function FacetParam(q: SearchQuery, f: Facet): Option<string> {
    match f
    case Category => q.category
    case Condition => q.condition
    case Location => q.location
  }

  datatype MustClause =
    | MultiMatch(text: string, fields: seq<string>, fuzziness: string)
    | MatchAll

  /** A `term` filter on one facet, or a `range` filter on `price` with optional `gte`/`lte` bounds. */
  datatype FilterClause =
    | Term(facet: Facet, value: string)
    | Range(gte: Option<Num>, lte: Option<Num>)

  datatype SortOrder = Asc | Desc

  datatype SortKey = SortKey(field: string, order: SortOrder)

  /** The request body sent to the store: `query.bool.{must, filter}`, `from`, `size`, `sort`. */
  datatype SearchBody = SearchBody(
    must: seq<MustClause>,
    filter: seq<FilterClause>,
    from: Num,
    size: Num,
    sort: seq<SortKey>)

  /** Title matches weigh twice as much as description matches. */
  const TextFields: seq<string> := ["title^2", "description"]
  const Fuzziness: string := "AUTO"
  const DefaultPage: int := 1
  const DefaultLimit: int := 20
  const NewestFirst: seq<SortKey> := [SortKey("createdAt", Desc)]

  function TextClause(q: SearchQuery): MustClause {
    if Given(q.query) then MultiMatch(q.query.value, TextFields, Fuzziness) else MatchAll
  }

  /** The `term` filter for one facet: present iff the facet's parameter is truthy. */
  function TermFilter(q: SearchQuery, f: Facet): (ts: seq<FilterClause>)
    ensures |ts| <= 1
    ensures ts != [] <==> Given(FacetParam(q, f))
    ensures forall i :: 0 <= i < |ts| ==> ts[i] == Term(f, FacetParam(q, f).value)
    ensures forall g :: HasTerm(ts, g) <==> g == f && Given(FacetParam(q, f))
    ensures TermsFromParams(q, ts)
  {
    if Given(FacetParam(q, f)) then
      var ts := [Term(f, FacetParam(q, f).value)];
      assert ts[0].Term? && ts[0].facet == f;
      ts
    else []
  }

  /** A bound is set only when its parameter is truthy, and is then `parseFloat` of it. */
  function Bound(v: Option<string>): Option<Num> {
    if Given(v) then Some(ParseNumber(v.value)) else None
  }

  /** The `range` filter on price: present iff either bound parameter is truthy. */
  function RangeFilter(q: SearchQuery): (r: seq<FilterClause>)
    ensures |r| <= 1
    ensures r != [] <==> Given(q.minPrice) || Given(q.maxPrice)
    ensures forall i :: 0 <= i < |r| ==>
              && r[i].Range?
              && (r[i].gte.Some? <==> Given(q.minPrice))
              && (r[i].lte.Some? <==> Given(q.maxPrice))
              && (Given(q.minPrice) ==> r[i].gte.value == ParseNumber(q.minPrice.value))
              && (Given(q.maxPrice) ==> r[i].lte.value == ParseNumber(q.maxPrice.value))
  {
    if Given(q.minPrice) || Given(q.maxPrice) then [Range(Bound(q.minPrice), Bound(q.maxPrice))] else []
  }

  /** `parseInt(page)`, where an absent page defaults to the number 1. */
  function PageNumber(q: SearchQuery): Num {
    match q.page
    case None => Finite(DefaultPage)
    case Some(s) => ParseNumber(s)
  }

  /** `parseInt(limit)`, where an absent limit defaults to the number 20. */
  function LimitNumber(q: SearchQuery): Num {
    match q.limit
    case None => Finite(DefaultLimit)
    case Some(s) => ParseNumber(s)
  }

  /** Position of a filter clause in the order the handler pushes them. */
  function Rank(c: FilterClause): nat {
    match c
    case Term(Category, _) => 0
    case Term(Condition, _) => 1
    case Term(Location, _) => 2
    case Range(_, _) => 3
  }

  /** Some clause of `filter` is a `term` filter on facet `f`. */
  predicate HasTerm(filter: seq<FilterClause>, f: Facet) {
    exists i :: 0 <= i < |filter| && filter[i].Term? && filter[i].facet == f
  }

  predicate HasRange(filter: seq<FilterClause>) {
    exists i :: 0 <= i < |filter| && filter[i].Range?
  }

  predicate Ascending(filter: seq<FilterClause>) {
    forall i, j :: 0 <= i < j < |filter| ==> Rank(filter[i]) < Rank(filter[j])
  }

  /** Appending range clauses after term clauses leaves the term clauses where they were. */
  lemma TermsThenRanges(ts: seq<FilterClause>, r: seq<FilterClause>)
    requires forall i :: 0 <= i < |ts| ==> ts[i].Term?
    requires |r| <= 1 && forall i :: 0 <= i < |r| ==> r[i].Range?
    ensures forall f :: HasTerm(ts + r, f) <==> HasTerm(ts, f)
    ensures HasRange(ts + r) <==> r != []
    ensures forall i :: 0 <= i < |ts + r| && (ts + r)[i].Term? ==> i < |ts| && (ts + r)[i] == ts[i]
    ensures forall i :: 0 <= i < |ts + r| && (ts + r)[i].Range? ==> (ts + r)[i] == r[0]
    ensures Ascending(ts) ==> Ascending(ts + r)
  {
    var filter := ts + r;
    forall f | HasTerm(ts, f) ensures HasTerm(filter, f) {
      var i :| 0 <= i < |ts| && ts[i].Term? && ts[i].facet == f;
      assert filter[i] == ts[i];
    }
    if r != [] {
      assert filter[|ts|] == r[0];
    }
    if Ascending(ts) {
      forall i, j | 0 <= i < j < |filter| ensures Rank(filter[i]) < Rank(filter[j]) {
        if j < |ts| {
          assert filter[i] == ts[i] && filter[j] == ts[j];
        } else {
          assert filter[i] == ts[i] && filter[j] == r[0];
        }
      }
    }
  }

  /** Each clause is a `term` filter carrying its facet's parameter verbatim. */
  predicate TermsFromParams(q: SearchQuery, ts: seq<FilterClause>) {
    forall i :: 0 <= i < |ts| ==>
      ts[i].Term? && Given(FacetParam(q, ts[i].facet)) && ts[i].value == FacetParam(q, ts[i].facet).value
  }

  predicate RanksBelow(cs: seq<FilterClause>, k: nat) {
    forall i :: 0 <= i < |cs| ==> Rank(cs[i]) < k
  }

  predicate RanksFrom(cs: seq<FilterClause>, k: nat) {
    forall i :: 0 <= i < |cs| ==> k <= Rank(cs[i])
  }

  /** What joining two clause lists keeps: the facets of both, well-formed terms, and the order. */
  lemma JoinClauses(q: SearchQuery, a: seq<FilterClause>, b: seq<FilterClause>, k: nat)
    ensures forall f :: HasTerm(a + b, f) <==> HasTerm(a, f) || HasTerm(b, f)
    ensures TermsFromParams(q, a) && TermsFromParams(q, b) ==> TermsFromParams(q, a + b)
    ensures Ascending(a) && Ascending(b) && RanksBelow(a, k) && RanksFrom(b, k) ==> Ascending(a + b)
    ensures RanksBelow(a, k) && RanksBelow(b, k) ==> RanksBelow(a + b, k)
  {
    var c := a + b;
    forall f | HasTerm(c, f) ensures HasTerm(a, f) || HasTerm(b, f) {
      var i :| 0 <= i < |c| && c[i].Term? && c[i].facet == f;
      if i >= |a| { assert b[i - |a|] == c[i]; }
    }
    forall f | HasTerm(b, f) ensures HasTerm(c, f) {
      var i :| 0 <= i < |b| && b[i].Term? && b[i].facet == f;
      assert c[|a| + i] == b[i];
    }
    forall f | HasTerm(a, f) ensures HasTerm(c, f) {
      var i :| 0 <= i < |a| && a[i].Term? && a[i].facet == f;
      assert c[i] == a[i];
    }
    assert forall i :: |a| <= i < |c| ==> c[i] == b[i - |a|];
  }

  /** The term filters for category, condition and location, in that order. */
  function TermFilters(q: SearchQuery): (ts: seq<FilterClause>)
    ensures forall f :: Given(FacetParam(q, f)) <==> HasTerm(ts, f)
    ensures TermsFromParams(q, ts)
    ensures Ascending(ts)
    ensures |ts| <= 3
    ensures ts == [] <==> !Given(q.category) && !Given(q.condition) && !Given(q.location)
  {
    var t1, t2, t3 := TermFilter(q, Category), TermFilter(q, Condition), TermFilter(q, Location);
    var t12 := t1 + t2;
    JoinClauses(q, t1, t2, 1);
    JoinClauses(q, t1, t2, 2);
    JoinClauses(q, t12, t3, 2);
    t12 + t3
  }

  /** The facts `Filters` promises, derived from those of its two halves. */
  lemma FiltersFacts(q: SearchQuery, ts: seq<FilterClause>, r: seq<FilterClause>, filter: seq<FilterClause>)
    requires forall f :: Given(FacetParam(q, f)) <==> HasTerm(ts, f)
    requires TermsFromParams(q, ts)
    requires Ascending(ts) && |ts| <= 3
    requires ts == [] <==> !Given(q.category) && !Given(q.condition) && !Given(q.location)
    requires |r| <= 1
    requires r != [] <==> Given(q.minPrice) || Given(q.maxPrice)
    requires forall i :: 0 <= i < |r| ==>
              && r[i].Range?
              && (r[i].gte.Some? <==> Given(q.minPrice))
              && (r[i].lte.Some? <==> Given(q.maxPrice))
              && (Given(q.minPrice) ==> r[i].gte.value == ParseNumber(q.minPrice.value))
              && (Given(q.maxPrice) ==> r[i].lte.value == ParseNumber(q.maxPrice.value))
    requires filter == ts + r
    ensures forall f :: Given(FacetParam(q, f)) <==> HasTerm(filter, f)
    ensures forall i :: 0 <= i < |filter| && filter[i].Term? ==>
              Given(FacetParam(q, filter[i].facet)) && filter[i].value == FacetParam(q, filter[i].facet).value
    ensures HasRange(filter) <==> Given(q.minPrice) || Given(q.maxPrice)
    ensures forall i :: 0 <= i < |filter| && filter[i].Range? ==>
              && (filter[i].gte.Some? <==> Given(q.minPrice))
              && (filter[i].lte.Some? <==> Given(q.maxPrice))
              && (Given(q.minPrice) ==> filter[i].gte.value == ParseNumber(q.minPrice.value))
              && (Given(q.maxPrice) ==> filter[i].lte.value == ParseNumber(q.maxPrice.value))
    ensures Ascending(filter)
    ensures |filter| <= 4
    ensures filter == [] <==>
              !Given(q.category) && !Given(q.condition) && !Given(q.location) && !Given(q.minPrice) && !Given(q.maxPrice)
  {
    TermsThenRanges(ts, r);
  }

  /** The `bool.filter` list: term filters for the truthy facets in a fixed order, then the price range. */
  function Filters(q: SearchQuery): (filter: seq<FilterClause>)
    // one term filter per truthy facet, value verbatim, and none for the others
    ensures forall f :: Given(FacetParam(q, f)) <==> HasTerm(filter, f)
    ensures forall i :: 0 <= i < |filter| && filter[i].Term? ==>
              Given(FacetParam(q, filter[i].facet)) && filter[i].value == FacetParam(q, filter[i].facet).value
    // a range filter iff a price bound is truthy, each side set only from its own parameter
    ensures HasRange(filter) <==> Given(q.minPrice) || Given(q.maxPrice)
    ensures forall i :: 0 <= i < |filter| && filter[i].Range? ==>
              && (filter[i].gte.Some? <==> Given(q.minPrice))
              && (filter[i].lte.Some? <==> Given(q.maxPrice))
              && (Given(q.minPrice) ==> filter[i].gte.value == ParseNumber(q.minPrice.value))
              && (Given(q.maxPrice) ==> filter[i].lte.value == ParseNumber(q.maxPrice.value))
    // category, condition, location, range: strictly in that order, so each at most once
    ensures Ascending(filter)
    ensures |filter| <= 4
    // no clause at all exactly when no facet and no price bound is truthy
    ensures filter == [] <==>
              !Given(q.category) && !Given(q.condition) && !Given(q.location) && !Given(q.minPrice) && !Given(q.maxPrice)
  {
    var ts, r := TermFilters(q), RangeFilter(q);
    FiltersFacts(q, ts, r, ts + r);
    ts + r
  }

  /** Compiles the endpoint's inputs into the body of the single store search. */
  function Compile(q: SearchQuery): (b: SearchBody)
    // exactly one must clause: fuzzy text match when a query is given, match_all otherwise
    ensures |b.must| == 1
    ensures b.must[0].MatchAll? <==> !Given(q.query)
    ensures Given(q.query) ==> b.must[0] == MultiMatch(q.query.value, ["title^2", "description"], "AUTO")
    ensures b.filter == Filters(q)
    // paging: from = (page - 1) * limit, size = limit, no clamping; fixed newest-first sort
    ensures PageNumber(q).Finite? && LimitNumber(q).Finite? ==>
              b.from == Finite((PageNumber(q).v - 1) * LimitNumber(q).v)
    ensures PageNumber(q).NaN? || LimitNumber(q).NaN? ==> b.from.NaN?
    ensures b.size == LimitNumber(q)
    ensures b.sort == [SortKey("createdAt", Desc)]
  {
    SearchBody(
      [TextClause(q)],
      Filters(q),
      PageNumber(q).Minus(1).Times(LimitNumber(q)),
      LimitNumber(q),
      NewestFirst)
  }
}
