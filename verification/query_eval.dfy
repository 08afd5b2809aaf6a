/**
 * An abstract evaluator for compiled queries: `term` is equality, `range` is inclusive
 * bounds, `bool` is conjunction. Full-text matching is not modelled; whether a product
 * matches a text query is left to a caller-supplied predicate.
 */
module QueryEval {
  import opened Wrappers
  import opened Decimal
  import opened Catalog
  import opened QueryBuilder

  /** Whether a product matches a free-text query (tokenization, boosts and fuzziness live here). */
  type TextMatch = (string, Product) -> bool

  predicate MustHolds(c: MustClause, p: Product, text: TextMatch) {
    match c
    case MatchAll => true
    case MultiMatch(t, _, _) => text(t, p)
  }

  /** A NaN bound is serialised as JSON `null`, which leaves that side of the range open. */
  predicate AtLeast(price: int, bound: Option<Num>) {
    bound.None? || bound.value.NaN? || price >= bound.value.v
  }

  predicate AtMost(price: int, bound: Option<Num>) {
    bound.None? || bound.value.NaN? || price <= bound.value.v
  }

  predicate FilterHolds(c: FilterClause, p: Product) {
    match c
    case Term(f, v) => FacetValue(p, f) == v
    case Range(gte, lte) => AtLeast(p.price, gte) && AtMost(p.price, lte)
  }

  /** `bool.must` and `bool.filter`: every clause of both lists holds. */
  predicate Eligible(p: Product, b: SearchBody, text: TextMatch) {
    && (forall i :: 0 <= i < |b.must| ==> MustHolds(b.must[i], p, text))
    && (forall i :: 0 <= i < |b.filter| ==> FilterHolds(b.filter[i], p))
  }

  /** What a request asks of a product, read directly off its inputs. */
  predicate Wanted(p: Product, q: SearchQuery, text: TextMatch) {
    && (Given(q.query) ==> text(q.query.value, p))
    && (Given(q.category) ==> p.category == q.category.value)
    && (Given(q.condition) ==> p.condition == q.condition.value)
    && (Given(q.location) ==> p.location == q.location.value)
    && (Given(q.minPrice) && ParseNumber(q.minPrice.value).Finite? ==> p.price >= ParseNumber(q.minPrice.value).v)
    && (Given(q.maxPrice) && ParseNumber(q.maxPrice.value).Finite? ==> p.price <= ParseNumber(q.maxPrice.value).v)
  }

  /** A product passes the compiled query exactly when it meets every constraint the request gives. */
  lemma CompiledQueryIsConjunction(q: SearchQuery, p: Product, text: TextMatch)
    ensures Eligible(p, Compile(q), text) <==> Wanted(p, q, text)
  {
    var b := Compile(q);
    if Eligible(p, b, text) {
      EligibleIsWanted(q, b.must, b.filter, p, text);
    }
    if Wanted(p, q, text) {
      WantedIsEligible(q, b.must, b.filter, p, text);
    }
  }

  lemma EligibleIsWanted(q: SearchQuery, must: seq<MustClause>, filter: seq<FilterClause>, p: Product, text: TextMatch)
    requires |must| == 1 && (must[0].MatchAll? <==> !Given(q.query))
    requires Given(q.query) ==> must[0] == MultiMatch(q.query.value, ["title^2", "description"], "AUTO")
    requires filter == Filters(q)
    requires forall i :: 0 <= i < |must| ==> MustHolds(must[i], p, text)
    requires forall i :: 0 <= i < |filter| ==> FilterHolds(filter[i], p)
    ensures Wanted(p, q, text)
  {
    assert MustHolds(must[0], p, text);
    forall f | Given(FacetParam(q, f)) ensures FacetValue(p, f) == FacetParam(q, f).value {
      assert HasTerm(filter, f);
      var i :| 0 <= i < |filter| && filter[i].Term? && filter[i].facet == f;
      assert FilterHolds(filter[i], p);
    }
    assert FacetParam(q, Category) == q.category;
    assert FacetParam(q, Condition) == q.condition;
    assert FacetParam(q, Location) == q.location;
    if Given(q.minPrice) || Given(q.maxPrice) {
      assert HasRange(filter);
      var i :| 0 <= i < |filter| && filter[i].Range?;
      assert FilterHolds(filter[i], p);
    }
  }

  lemma WantedIsEligible(q: SearchQuery, must: seq<MustClause>, filter: seq<FilterClause>, p: Product, text: TextMatch)
    requires |must| == 1 && (must[0].MatchAll? <==> !Given(q.query))
    requires Given(q.query) ==> must[0] == MultiMatch(q.query.value, ["title^2", "description"], "AUTO")
    requires filter == Filters(q)
    requires Wanted(p, q, text)
    ensures forall i :: 0 <= i < |must| ==> MustHolds(must[i], p, text)
    ensures forall i :: 0 <= i < |filter| ==> FilterHolds(filter[i], p)
  {
    forall i | 0 <= i < |filter| ensures FilterHolds(filter[i], p) {
      if filter[i].Term? {
        match filter[i].facet
        case Category =>
        case Condition =>
        case Location =>
      }
    }
  }
}
