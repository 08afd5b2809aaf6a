/**
 * The browser client's search call: a filters object becomes the query string of
 * `GET /api/search`, one key per truthy filter in a fixed order, then page and limit.
 */
module ProductService {
  import opened Wrappers
  import opened JsValue
  import opened QueryString

  /** The filters object handed to `searchProducts`. */
  datatype SearchArgs = SearchArgs(
    query: JsVal,
    category: JsVal,
    minPrice: JsVal,
    maxPrice: JsVal,
    condition: JsVal,
    location: JsVal,
    page: JsVal,
    limit: JsVal)

  /** The position at which `searchProducts` appends each key. */
  function NameRank(n: ParamName): nat {
    match n
    case QueryKey => 0
    case CategoryKey => 1
    case MinPriceKey => 2
    case MaxPriceKey => 3
    case ConditionKey => 4
    case LocationKey => 5
    case PageKey => 6
    case LimitKey => 7
  }

  /** The key appended at position `k`. */
  function NameAt(k: nat): (n: ParamName)
    requires k < 8
    ensures NameRank(n) == k
    ensures forall m :: NameRank(m) == k ==> m == n
  {
    if k == 0 then QueryKey
    else if k == 1 then CategoryKey
    else if k == 2 then MinPriceKey
    else if k == 3 then MaxPriceKey
    else if k == 4 then ConditionKey
    else if k == 5 then LocationKey
    else if k == 6 then PageKey
    else LimitKey
  }

  /** The position of a key string in the query string; a key the client never sends ranks last. */
  function KeyRank(k: string): nat {
    if k == "query" then 0
    else if k == "category" then 1
    else if k == "minPrice" then 2
    else if k == "maxPrice" then 3
    else if k == "condition" then 4
    else if k == "location" then 5
    else if k == "page" then 6
    else if k == "limit" then 7
    else 8
  }

  lemma KeyRankOfKey()
    ensures forall n :: KeyRank(Key(n)) == NameRank(n)
  {
    forall n ensures KeyRank(Key(n)) == NameRank(n) {
      match n
      case QueryKey =>
      case CategoryKey =>
      case MinPriceKey =>
      case MaxPriceKey =>
      case ConditionKey =>
      case LocationKey =>
      case PageKey =>
      case LimitKey =>
    }
  }

  function Arg(a: SearchArgs, n: ParamName): JsVal {
    match n
    case QueryKey => a.query
    case CategoryKey => a.category
    case MinPriceKey => a.minPrice
    case MaxPriceKey => a.maxPrice
    case ConditionKey => a.condition
    case LocationKey => a.location
    case PageKey => a.page
    case LimitKey => a.limit
  }

  /** JavaScript `v || d`. */
  function Or(v: JsVal, d: JsVal): JsVal {
    if Truthy(v) then v else d
  }

  const DefaultPage: JsVal := Number(1)
  const DefaultLimit: JsVal := Number(20)

  /** The value sent for a key: page and limit always (falling back to 1 and 20), the others only when truthy. */
  function Sent(a: SearchArgs, n: ParamName): Option<string> {
    match n
    case PageKey => Some(Text(Or(a.page, DefaultPage)))
    case LimitKey => Some(Text(Or(a.limit, DefaultLimit)))
    case _ => if Truthy(Arg(a, n)) then Some(Text(Arg(a, n))) else None
  }

  predicate NamesSorted(ns: seq<ParamName>) {
    forall i, j :: 0 <= i < j < |ns| ==> NameRank(ns[i]) < NameRank(ns[j])
  }

  /** The sent keys from append position `k` on, in append order. */
  function SentFrom(a: SearchArgs, k: nat): (e: seq<ParamName>)
    requires k <= 8
    ensures forall n :: n in e <==> k <= NameRank(n) && Sent(a, n).Some?
    ensures forall i :: 0 <= i < |e| ==> k <= NameRank(e[i])
    ensures NamesSorted(e)
    decreases 8 - k
  {
    if k == 8 then []
    else
      var rest := SentFrom(a, k + 1);
      if Sent(a, NameAt(k)).Some? then [NameAt(k)] + rest else rest
  }

  /** In a query string whose keys are pairwise distinct, a key reads back the value stored with it. */
  lemma {:induction false} LookupDistinct(ps: Params, i: nat)
    requires i < |ps|
    requires forall x, y :: 0 <= x < y < |ps| ==> ps[x].0 != ps[y].0
    ensures Lookup(ps, ps[i].0) == Some(ps[i].1)
  {
    if i > 0 {
      LookupDistinct(ps[1..], i - 1);
    }
  }

  /** A strictly rank-increasing list of names has at most one of each and is at most eight long. */
  lemma {:induction false} RankGrows(e: seq<ParamName>, i: nat)
    requires NamesSorted(e) && i < |e|
    ensures i <= NameRank(e[i])
  {
    if i > 0 {
      RankGrows(e, i - 1);
    }
  }

  /** Page and limit have the two highest ranks, so a sorted list holding both ends with them. */
  lemma SortedEndsWithPageLimit(e: seq<ParamName>)
    requires NamesSorted(e) && PageKey in e && LimitKey in e
    ensures 2 <= |e| <= 8 && e[|e| - 2] == PageKey && e[|e| - 1] == LimitKey
  {
    var ip :| 0 <= ip < |e| && e[ip] == PageKey;
    var il :| 0 <= il < |e| && e[il] == LimitKey;
    assert ip < il;
    var last := |e| - 1;
    RankGrows(e, last);
    forall k | 0 <= k < |e| ensures NameRank(e[k]) <= NameRank(e[last]) {
      if k < last {
        assert NameRank(e[k]) < NameRank(e[last]);
      }
    }
    assert NameRank(e[last]) == 7 by {
      assert NameRank(e[il]) <= NameRank(e[last]);
    }
    forall k | 0 <= k < last ensures NameRank(e[k]) <= NameRank(e[last - 1]) {
      if k < last - 1 {
        assert NameRank(e[k]) < NameRank(e[last - 1]);
      }
    }
    assert NameRank(e[last - 1]) == 6 by {
      assert NameRank(e[ip]) <= NameRank(e[last - 1]) < NameRank(e[last]);
    }
  }

  /** The query-string pairs for the sent names, in order. */
  function Pairs(a: SearchArgs, e: seq<ParamName>): (ps: Params)
    requires forall n :: n in e ==> Sent(a, n).Some?
    ensures |ps| == |e|
    ensures forall i :: 0 <= i < |e| ==> ps[i] == (Key(e[i]), Sent(a, e[i]).value)
  {
    seq(|e|, i requires 0 <= i < |e| => (Key(e[i]), Sent(a, e[i]).value))
  }

  lemma PairsLookup(a: SearchArgs, e: seq<ParamName>, n: ParamName)
    requires forall n :: n in e ==> Sent(a, n).Some?
    requires NamesSorted(e)
    requires n in e <==> Sent(a, n).Some?
    ensures Lookup(Pairs(a, e), Key(n)) == Sent(a, n)
  {
    var ps := Pairs(a, e);
    forall x, y | 0 <= x < y < |ps| ensures ps[x].0 != ps[y].0 {
      KeyInjective(e[x], e[y]);
    }
    if Sent(a, n).Some? {
      var i :| 0 <= i < |e| && e[i] == n;
      LookupDistinct(ps, i);
    } else {
      forall i | 0 <= i < |ps| ensures ps[i].0 != Key(n) {
        KeyInjective(e[i], n);
      }
    }
  }

  lemma SerializeLookup(a: SearchArgs, e: seq<ParamName>)
    requires forall n :: n in e <==> Sent(a, n).Some?
    requires NamesSorted(e)
    ensures forall n :: Lookup(Pairs(a, e), Key(n)) == Sent(a, n)
  {
    forall n ensures Lookup(Pairs(a, e), Key(n)) == Sent(a, n) {
      PairsLookup(a, e, n);
    }
  }

  predicate RankSorted(ps: Params) {
    forall i, j :: 0 <= i < j < |ps| ==> KeyRank(ps[i].0) < KeyRank(ps[j].0)
  }

  /** Keys ranked in the order of their names keep that order, and none ranks as unknown. */
  lemma PairsRanked(a: SearchArgs, e: seq<ParamName>)
    requires forall n :: n in e ==> Sent(a, n).Some?
    requires NamesSorted(e)
    ensures RankSorted(Pairs(a, e))
    ensures forall i :: 0 <= i < |Pairs(a, e)| ==> KeyRank(Pairs(a, e)[i].0) < 8
  {
    KeyRankOfKey();
  }

  /** Page and limit are the last two pairs, with their values. */
  lemma PairsEndWithPaging(a: SearchArgs, e: seq<ParamName>)
    requires forall n :: n in e <==> Sent(a, n).Some?
    requires NamesSorted(e)
    ensures 2 <= |Pairs(a, e)| <= 8
    ensures Pairs(a, e)[|e| - 2] == ("page", Text(Or(a.page, DefaultPage)))
    ensures Pairs(a, e)[|e| - 1] == ("limit", Text(Or(a.limit, DefaultLimit)))
  {
    assert Sent(a, PageKey).Some? && Sent(a, LimitKey).Some?;
    SortedEndsWithPageLimit(e);
  }

  /** `searchProducts(filters)`: the query string of the search request. */
  function Serialize(a: SearchArgs): (ps: Params)
    // every key is sent exactly when its value is, and carries that value
    ensures forall n :: Lookup(ps, Key(n)) == Sent(a, n)
  {
    var e := SentFrom(a, 0);
    SerializeLookup(a, e);
    Pairs(a, e)
  }

  /** Keys appear in append order, each at most once, no other key appears, and page and limit come last. */
  lemma SerializedInAppendOrder(a: SearchArgs)
    ensures RankSorted(Serialize(a))
    ensures forall i :: 0 <= i < |Serialize(a)| ==> KeyRank(Serialize(a)[i].0) < 8
    ensures 2 <= |Serialize(a)| <= 8
    ensures Serialize(a)[|Serialize(a)| - 2] == ("page", Text(Or(a.page, DefaultPage)))
    ensures Serialize(a)[|Serialize(a)| - 1] == ("limit", Text(Or(a.limit, DefaultLimit)))
  {
    var e := SentFrom(a, 0);
    PairsRanked(a, e);
    PairsEndWithPaging(a, e);
  }
}
