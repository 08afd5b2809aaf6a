/**
 * Route dispatch of the search service: Express tries the GET routes in the order they
 * are registered and the first whose pattern matches the path handles the request.
 */
module Routes {
  import opened Wrappers

  /** A path pattern segment: fixed text, or a `:param` that matches any non-empty segment. */
  datatype Segment = Literal(text: string) | Param(name: string)

  datatype Handler = Health | Search | GetProduct | Categories

  datatype Route = Route(pattern: seq<Segment>, handler: Handler)

  predicate SegmentMatches(seg: Segment, s: string) {
    match seg
    case Literal(t) => s == t
    case Param(_) => s != ""
  }

  predicate Matches(pattern: seq<Segment>, path: seq<string>) {
    |pattern| == |path| && forall i :: 0 <= i < |path| ==> SegmentMatches(pattern[i], path[i])
  }

  /** The handler of the first route whose pattern matches `path`. */
  function Dispatch(routes: seq<Route>, path: seq<string>): (r: Option<Handler>)
    ensures r.None? <==> forall i :: 0 <= i < |routes| ==> !Matches(routes[i].pattern, path)
    ensures r.Some? ==> exists i :: 0 <= i < |routes| && Matches(routes[i].pattern, path) && routes[i].handler == r.value
                                    && forall j :: 0 <= j < i ==> !Matches(routes[j].pattern, path)
  {
    if routes == [] then None
    else if Matches(routes[0].pattern, path) then Some(routes[0].handler)
    else
      var r := Dispatch(routes[1..], path);
      assert forall i :: 1 <= i < |routes| ==> routes[i] == routes[1..][i - 1];
      r
  }

  const HealthRoute: Route := Route([Literal("health")], Health)
  const SearchRoute: Route := Route([Literal("api"), Literal("search")], Search)
  const ProductRoute: Route := Route([Literal("api"), Literal("products"), Param("id")], GetProduct)
  const CategoriesRoute: Route := Route([Literal("api"), Literal("products"), Literal("categories")], Categories)

  /** The GET routes in the order the service registers them: the `:id` route comes before `categories`. */
  const RegisteredGetRoutes: seq<Route> := [HealthRoute, SearchRoute, ProductRoute, CategoriesRoute]

  /** The evident intent: the literal `categories` route registered ahead of the `:id` route. */
  const IntendedGetRoutes: seq<Route> := [HealthRoute, SearchRoute, CategoriesRoute, ProductRoute]

  const CategoriesPath: seq<string> := ["api", "products", "categories"]

  /** As registered, the category list is unreachable: its path is taken as a lookup of the product id "categories". */
  lemma CategoriesRouteIsShadowed()
    ensures Dispatch(RegisteredGetRoutes, CategoriesPath) == Some(GetProduct)
    ensures forall path :: Dispatch(RegisteredGetRoutes, path) != Some(Categories)
  {
    var rs := RegisteredGetRoutes;
    assert !Matches(rs[0].pattern, CategoriesPath) by { assert !SegmentMatches(rs[0].pattern[0], CategoriesPath[0]); }
    assert !Matches(rs[1].pattern, CategoriesPath) by { assert |rs[1].pattern| != |CategoriesPath|; }
    assert Matches(rs[2].pattern, CategoriesPath);
    forall path ensures Dispatch(rs, path) != Some(Categories) {
      if Matches(rs[3].pattern, path) {
        assert SegmentMatches(rs[2].pattern[2], path[2]);
        assert Matches(rs[2].pattern, path);
      }
    }
  }

  /** With the literal route first, the category list is reached, and every other product id still reaches the lookup. */
  lemma IntendedOrderReachesCategories()
    ensures Dispatch(IntendedGetRoutes, CategoriesPath) == Some(Categories)
    ensures forall id :: id != "" && id != "categories" ==>
              Dispatch(IntendedGetRoutes, ["api", "products", id]) == Some(GetProduct)
              && Dispatch(RegisteredGetRoutes, ["api", "products", id]) == Some(GetProduct)
  {
    var rs, old_ := IntendedGetRoutes, RegisteredGetRoutes;
    assert !Matches(rs[0].pattern, CategoriesPath) by { assert !SegmentMatches(rs[0].pattern[0], CategoriesPath[0]); }
    assert !Matches(rs[1].pattern, CategoriesPath) by { assert |rs[1].pattern| != |CategoriesPath|; }
    assert Matches(rs[2].pattern, CategoriesPath);
    forall id | id != "" && id != "categories"
      ensures Dispatch(rs, ["api", "products", id]) == Some(GetProduct)
      ensures Dispatch(old_, ["api", "products", id]) == Some(GetProduct)
    {
      var path := ["api", "products", id];
      assert !Matches(rs[0].pattern, path) by { assert !SegmentMatches(rs[0].pattern[0], path[0]); }
      assert !Matches(rs[1].pattern, path) by { assert |rs[1].pattern| != |path|; }
      assert !Matches(rs[2].pattern, path) by { assert !SegmentMatches(rs[2].pattern[2], path[2]); }
      assert Matches(rs[3].pattern, path);
      assert Matches(old_[2].pattern, path);
    }
  }
}
