/**
 * The search service's HTTP handlers: single and bulk ingest, search, lookup by id and
 * the category list. Each store call is a parameter (its answer, or the store's state).
 */
module SearchService {
  import opened Wrappers
  import opened Decimal
  import opened Catalog
  import opened Http
  import opened QueryBuilder
  import opened QueryEval
  import opened DocumentStore
  import opened SearchEngine

  /** Where a write can fail: the write itself, or the refresh that follows it. */
  datatype WriteFault = NoFault | WriteFails | RefreshFails

  /** `POST /api/products`: upsert one product, then refresh so it is searchable. */
  function AddProduct(st: Store, p: Product, autoId: string, fault: WriteFault): (r: (Store, Reply<Product>))
    ensures fault == WriteFails ==> r.0 == st
    ensures fault != WriteFails ==> r.0 == Put(st, p, autoId)
    ensures r.1.IsSuccess() <==> fault == NoFault
    ensures fault == NoFault ==> r.1 == Payload(201, p)
    ensures fault != NoFault ==> r.1 == ErrorReply(500, "Failed to add product")
  {
    match fault
    case WriteFails => (st, ErrorReply(500, "Failed to add product"))
    case RefreshFails => (Put(st, p, autoId), ErrorReply(500, "Failed to add product"))
    case NoFault => (Put(st, p, autoId), Payload(201, p))
  }

  /**
   * `POST /api/products/bulk`: one bulk request for `req.body.products`, then a refresh.
   * A missing `products` array throws before any write, and the store rejects a bulk
   * request with no operations in it, so an empty array fails without a write too. The
   * reported count is the number of products sent, whatever the store did with each item.
   */
  function BulkAdd(st: Store, products: Option<seq<Product>>, accepted: nat -> bool, autoId: nat -> string, fault: WriteFault): (r: (Store, Reply<nat>))
    ensures products.None? || products.value == [] || fault == WriteFails ==> r.0 == st
    ensures products.Some? && products.value != [] && fault != WriteFails ==> r.0 == PutAll(st, products.value, 0, accepted, autoId)
    ensures r.1.IsSuccess() <==> products.Some? && products.value != [] && fault == NoFault
    ensures r.1.IsSuccess() ==> r.1 == Payload(201, |products.value|) && r.1.value > 0
    ensures !r.1.IsSuccess() ==> r.1 == ErrorReply(500, "Failed to add products")
  {
    if products.None? || products.value == [] || fault == WriteFails then (st, ErrorReply(500, "Failed to add products"))
    else
      var ps := products.value;
      BulkIsSequentialPut(st, ps, 0, accepted, autoId);
      var st' := ApplyBulk(st, BulkBody(ps), 0, accepted, autoId);
      if fault == RefreshFails then (st', ErrorReply(500, "Failed to add products"))
      else
        assert fault == NoFault;
        (st', Payload(201, |ps|))
  }

  /** `{ id: hit._id, ...hit._source }`: a document's own `id`, when it has one, wins over the key. */
  function Project(h: Hit): (p: Product)
    ensures p.id == Some(if h.source.id.Some? then h.source.id.value else h.key)
    ensures p.(id := h.source.id) == h.source
  {
    h.source.(id := Some(h.source.id.GetOr(h.key)))
  }

  function ProjectAll(hs: seq<Hit>): (ps: seq<Product>)
    ensures |ps| == |hs|
    ensures forall i :: 0 <= i < |hs| ==> ps[i] == Project(hs[i])
  {
    seq(|hs|, i requires 0 <= i < |hs| => Project(hs[i]))
  }

  datatype SearchPage = SearchPage(products: seq<Product>, total: nat, page: Num, limit: Num)

  /** `GET /api/search`: compile, run one store search, project the hits. */
  function HandleSearch(q: SearchQuery, search: SearchBody -> Result<SearchHits, StoreError>): (r: Reply<SearchPage>)
    ensures search(Compile(q)).Fail? ==> r == ErrorReply(500, "Search failed")
    ensures search(Compile(q)).Ok? ==>
              && r.Payload? && r.status == 200
              && r.value.total == search(Compile(q)).value.total
              && r.value.products == ProjectAll(search(Compile(q)).value.hits)
              && r.value.page == PageNumber(q)
              && r.value.limit == LimitNumber(q)
  {
    match search(Compile(q))
    case Fail(_) => ErrorReply(500, "Search failed")
    case Ok(res) => Payload(200, SearchPage(ProjectAll(res.hits), res.total, PageNumber(q), LimitNumber(q)))
  }

  /**
   * Filter conjunction end to end: against an index snapshot, every product a search
   * returns is a stored document that meets every constraint of the request.
   */
  lemma SearchReturnsOnlyWanted(q: SearchQuery, index: seq<Hit>, text: TextMatch)
    ensures var r := HandleSearch(q, b => RunSearch(index, b, text));
            r.Payload? ==> forall i :: 0 <= i < |r.value.products| ==>
              exists h :: h in index && r.value.products[i] == Project(h) && Wanted(h.source, q, text)
  {
    var b := Compile(q);
    var res := RunSearch(index, b, text);
    if res.Ok? {
      var hs := res.value.hits;
      forall i | 0 <= i < |hs| ensures hs[i] in index && Wanted(hs[i].source, q, text) {
        assert hs[i] in hs;
        CompiledQueryIsConjunction(q, hs[i].source, text);
      }
    }
  }

  /** A search served by the store from an index snapshot. */
  function SearchIndex(q: SearchQuery, index: seq<Hit>, text: TextMatch): Reply<SearchPage> {
    HandleSearch(q, b => RunSearch(index, b, text))
  }

  /**
   * Completeness of the count: the `total` of a search is the number of stored documents
   * that meet every constraint of the request.
   */
  lemma SearchCountsWanted(q: SearchQuery, index: seq<Hit>, text: TextMatch)
    ensures var r := SearchIndex(q, index, text);
            r.Payload? ==> r.value.total == |set i | 0 <= i < |index| && Wanted(index[i].source, q, text)|
  {
    var b := Compile(q);
    forall i | 0 <= i < |index| ensures Eligible(index[i].source, b, text) <==> Wanted(index[i].source, q, text) {
      CompiledQueryIsConjunction(q, index[i].source, text);
    }
    assert EligiblePositions(index, b, text) == set i | 0 <= i < |index| && Wanted(index[i].source, q, text);
  }

  /** Every stored document that meets the request is in the result list, as often as it is stored. */
  lemma WantedIsRanked(q: SearchQuery, index: seq<Hit>, text: TextMatch)
    ensures forall h :: h in index && Wanted(h.source, q, text) ==>
              multiset(Ranked(index, Compile(q), text))[h] == multiset(index)[h]
    ensures forall h :: h in Ranked(index, Compile(q), text) ==> h in index && Wanted(h.source, q, text)
  {
    var b := Compile(q);
    MatchingCounts(index, b, text);
    forall h | h in index && Wanted(h.source, q, text) ensures multiset(Ranked(index, b, text))[h] == multiset(index)[h] {
      CompiledQueryIsConjunction(q, h.source, text);
    }
    forall h | h in Ranked(index, b, text) ensures h in index && Wanted(h.source, q, text) {
      assert h in multiset(Ranked(index, b, text));
      assert h in Matching(index, b, text);
      CompiledQueryIsConjunction(q, h.source, text);
    }
  }

  /** The request for page `k` of `limit` results, with every other parameter of `q` kept. */
  function PageQuery(q: SearchQuery, k: nat, limit: nat): SearchQuery {
    q.(page := Some(ToDecimal(k)), limit := Some(ToDecimal(limit)))
  }

  /** Page and limit change only the window: the compiled clauses, and so the result list, stay the same. */
  lemma PagingKeepsResultList(q: SearchQuery, index: seq<Hit>, text: TextMatch, k: nat, limit: nat)
    ensures Compile(PageQuery(q, k, limit)).must == Compile(q).must
    ensures Compile(PageQuery(q, k, limit)).filter == Compile(q).filter
    ensures Ranked(index, Compile(PageQuery(q, k, limit)), text) == Ranked(index, Compile(q), text)
  {
    var pq := PageQuery(q, k, limit);
    assert TermFilters(pq) == TermFilters(q);
    assert RangeFilter(pq) == RangeFilter(q);
    MatchingIgnoresPaging(SortNewestFirst(index), Compile(pq), Compile(q), text);
  }

  /**
   * Page `k` (from 1) of `limit` results, as the client asks for it, is the
   * `[(k - 1) * limit, k * limit)` window of the one result list every page shares.
   */
  lemma PageIsWindow(q: SearchQuery, index: seq<Hit>, text: TextMatch, k: nat, limit: nat)
    requires k >= 1
    ensures var r := SearchIndex(PageQuery(q, k, limit), index, text);
            && r.Payload?
            && r.value.products == ProjectAll(Window(Ranked(index, Compile(q), text), PageStart(k, limit), limit))
            && r.value.total == |Ranked(index, Compile(q), text)|
            && r.value.page == Finite(k) && r.value.limit == Finite(limit)
  {
    var pq := PageQuery(q, k, limit);
    ParseToDecimal(k);
    ParseToDecimal(limit);
    assert PageNumber(pq) == Finite(k) && LimitNumber(pq) == Finite(limit);
    PagesEndIsProduct(k - 1, limit);
    assert Compile(pq).from == Finite(PageStart(k, limit));
    PagingKeepsResultList(q, index, text, k, limit);
  }

  /** The products on page `k` of `limit` results, as the client receives them. */
  function PageProducts(q: SearchQuery, index: seq<Hit>, text: TextMatch, k: nat, limit: nat): (ps: seq<Product>)
    requires k >= 1
    ensures ps == ProjectAll(Window(Ranked(index, Compile(q), text), PageStart(k, limit), limit))
  {
    PageIsWindow(q, index, text, k, limit);
    var r := SearchIndex(PageQuery(q, k, limit), index, text);
    if r.Payload? then r.value.products else []
  }

  /** The products of pages 1..m of `limit` results, fetched one after the other. */
  function SearchPages(q: SearchQuery, index: seq<Hit>, text: TextMatch, limit: nat, m: nat): seq<Product> {
    if m == 0 then [] else SearchPages(q, index, text, limit, m - 1) + PageProducts(q, index, text, m, limit)
  }

  lemma ProjectAllAppend(a: seq<Hit>, c: seq<Hit>)
    ensures ProjectAll(a + c) == ProjectAll(a) + ProjectAll(c)
  {
  }

  /** Appending the projection of page `m` to that of pages 1..m-1 gives the projection of pages 1..m. */
  lemma ProjectedPagesStep(e: seq<Hit>, limit: nat, m: nat, prev: seq<Product>, page: seq<Product>)
    requires m > 0
    requires prev == ProjectAll(Pages(e, limit, m - 1))
    requires page == ProjectAll(Window(e, PageStart(m, limit), limit))
    ensures prev + page == ProjectAll(Pages(e, limit, m))
  {
    ProjectAllAppend(Pages(e, limit, m - 1), Window(e, PageStart(m, limit), limit));
  }

  /** Pages 1..m of a search, laid end to end, are the projected pages 1..m of its result list. */
  lemma {:induction false} SearchPagesArePages(q: SearchQuery, index: seq<Hit>, text: TextMatch, limit: nat, m: nat)
    ensures SearchPages(q, index, text, limit, m) == ProjectAll(Pages(Ranked(index, Compile(q), text), limit, m))
  {
    var e := Ranked(index, Compile(q), text);
    if m == 0 {
      assert ProjectAll(Pages(e, limit, 0)) == [];
    } else {
      var k := m - 1;
      SearchPagesArePages(q, index, text, limit, k);
      var prev := SearchPages(q, index, text, limit, k);
      var page := PageProducts(q, index, text, m, limit);
      assert prev == ProjectAll(Pages(e, limit, k));
      ProjectedPagesStep(e, limit, m, prev, page);
      assert SearchPages(q, index, text, limit, m) == prev + page;
    }
  }

  /** Paging through a search repeats and skips nothing: pages 1..m hold exactly the first `m * limit` results. */
  lemma PagedSearchIsPrefix(q: SearchQuery, index: seq<Hit>, text: TextMatch, limit: nat, m: nat)
    ensures var e := Ranked(index, Compile(q), text);
            SearchPages(q, index, text, limit, m) == ProjectAll(e[..Min(PagesEnd(m, limit), |e|)])
  {
    var e := Ranked(index, Compile(q), text);
    SearchPagesArePages(q, index, text, limit, m);
    PagesArePrefix(e, limit, m);
  }

  /**
   * Paging through a search is complete: the `ceil(total / limit)` pages that the first
   * reply's `total` announces hold the whole result list, so every stored document that
   * meets the request is fetched.
   */
  lemma PagedSearchCoversResult(q: SearchQuery, index: seq<Hit>, text: TextMatch, limit: nat)
    requires limit > 0
    ensures var first := SearchIndex(PageQuery(q, 1, limit), index, text);
            && first.Payload?
            && SearchPages(q, index, text, limit, PageCount(first.value.total, limit)) == ProjectAll(Ranked(index, Compile(q), text))
            && forall h :: h in index && Wanted(h.source, q, text) ==>
                 Project(h) in SearchPages(q, index, text, limit, PageCount(first.value.total, limit))
  {
    var e := Ranked(index, Compile(q), text);
    PageIsWindow(q, index, text, 1, limit);
    var n := PageCount(|e|, limit);
    assert n == PageCount(SearchIndex(PageQuery(q, 1, limit), index, text).value.total, limit);
    AllSearchPages(q, index, text, limit);
    WantedIsProjected(q, index, text);
  }

  /** All `ceil(|result| / limit)` pages, laid end to end, are the projected result list. */
  lemma AllSearchPages(q: SearchQuery, index: seq<Hit>, text: TextMatch, limit: nat)
    requires limit > 0
    ensures var e := Ranked(index, Compile(q), text);
            SearchPages(q, index, text, limit, PageCount(|e|, limit)) == ProjectAll(e)
  {
    var e := Ranked(index, Compile(q), text);
    SearchPagesArePages(q, index, text, limit, PageCount(|e|, limit));
    AllPagesCoverResult(e, limit);
  }

  /** Every stored document that meets the request is, projected, in the projected result list. */
  lemma WantedIsProjected(q: SearchQuery, index: seq<Hit>, text: TextMatch)
    ensures forall h :: h in index && Wanted(h.source, q, text) ==> Project(h) in ProjectAll(Ranked(index, Compile(q), text))
  {
    var e := Ranked(index, Compile(q), text);
    WantedIsRanked(q, index, text);
    forall h | h in index && Wanted(h.source, q, text) ensures Project(h) in ProjectAll(e) {
      assert multiset(e)[h] > 0;
      InProjection(e, h);
    }
  }

  lemma InProjection(hs: seq<Hit>, h: Hit)
    requires h in hs
    ensures Project(h) in ProjectAll(hs)
  {
    var i :| 0 <= i < |hs| && hs[i] == h;
    assert ProjectAll(hs)[i] == Project(h);
  }

  // ---------------------------------------------------------------------------
  // Searching what was written

  /** The search index over a store: one hit per stored key, carrying that key's document, in some order. */
  predicate IsSnapshot(st: Store, hs: seq<Hit>) {
    && (forall i :: 0 <= i < |hs| ==> hs[i].key in st && hs[i].source == st[hs[i].key])
    && (forall k :: k in st ==> exists i :: 0 <= i < |hs| && hs[i].key == k)
    && (forall i, j :: 0 <= i < j < |hs| ==> hs[i].key != hs[j].key)
  }

  /** Every store has a snapshot, with one hit per document; the store's own order is left open. */
  ghost function Snapshot(st: Store): (hs: seq<Hit>)
    ensures IsSnapshot(st, hs)
    ensures |hs| == |st|
    decreases |st|
  {
    if st == map[] then []
    else
      var k :| k in st;
      var rest := st - {k};
      RemoveKeySize(st, k);
      var tail := Snapshot(rest);
      SnapshotCons(st, k, tail);
      [Hit(k, st[k])] + tail
  }

  lemma RemoveKeySize(st: Store, k: string)
    requires k in st
    ensures |st - {k}| == |st| - 1
  {
    assert (st - {k}).Keys == st.Keys - {k};
  }

  /** A snapshot of the store without `k`, with `k`'s hit in front, is a snapshot of the store. */
  lemma SnapshotCons(st: Store, k: string, tail: seq<Hit>)
    requires k in st
    requires IsSnapshot(st - {k}, tail)
    ensures IsSnapshot(st, [Hit(k, st[k])] + tail)
  {
    var hs := [Hit(k, st[k])] + tail;
    forall i | 0 <= i < |hs| ensures hs[i].key in st && hs[i].source == st[hs[i].key] {
      if i > 0 { assert hs[i] == tail[i - 1]; }
    }
    forall j | j in st ensures exists i :: 0 <= i < |hs| && hs[i].key == j {
      if j != k {
        assert j in st - {k};
        var i :| 0 <= i < |tail| && tail[i].key == j;
        assert hs[i + 1].key == j;
      } else {
        assert hs[0].key == j;
      }
    }
    forall i, j | 0 <= i < j < |hs| ensures hs[i].key != hs[j].key {
      assert hs[j] == tail[j - 1];
      if i > 0 { assert hs[i] == tail[i - 1]; }
    }
  }

  /** The request without parameters: no text, no filters, default paging. */
  const MatchAllQuery := SearchQuery(None, None, None, None, None, None, None, None)

  /** Once written and refreshed, every stored document is found by paging through a search without filters. */
  lemma StoredIsSearchable(st: Store, hs: seq<Hit>, text: TextMatch, limit: nat)
    requires limit > 0
    requires IsSnapshot(st, hs)
    ensures var first := SearchIndex(PageQuery(MatchAllQuery, 1, limit), hs, text);
            && first.Payload?
            && forall k :: k in st ==>
                 Project(Hit(k, st[k])) in SearchPages(MatchAllQuery, hs, text, limit, PageCount(first.value.total, limit))
  {
    PagedSearchCoversResult(MatchAllQuery, hs, text, limit);
    forall k | k in st ensures Hit(k, st[k]) in hs && Wanted(st[k], MatchAllQuery, text) {
      SnapshotHolds(st, hs, k);
    }
  }

  lemma SnapshotHolds(st: Store, hs: seq<Hit>, k: string)
    requires IsSnapshot(st, hs) && k in st
    ensures Hit(k, st[k]) in hs
  {
    var i :| 0 <= i < |hs| && hs[i].key == k;
    assert hs[i] == Hit(k, st[k]);
  }

  /**
   * A product added with a successful refresh is found by the next search without filters,
   * under the key it was written to; a product with its own `id` comes back unchanged.
   */
  lemma AddedProductIsSearchable(st: Store, p: Product, autoId: string, hs: seq<Hit>, text: TextMatch, limit: nat)
    requires limit > 0
    requires IsSnapshot(AddProduct(st, p, autoId, NoFault).0, hs)
    ensures var first := SearchIndex(PageQuery(MatchAllQuery, 1, limit), hs, text);
            && first.Payload?
            && var found := SearchPages(MatchAllQuery, hs, text, limit, PageCount(first.value.total, limit));
               && Project(Hit(KeyOf(p, autoId), p)) in found
               && (p.id.Some? ==> p in found)
  {
    var st' := AddProduct(st, p, autoId, NoFault).0;
    StoredIsSearchable(st', hs, text, limit);
    assert st'[KeyOf(p, autoId)] == p;
  }

  /** No text, no filters, default paging: the first page holds the 20 newest documents and `total` counts them all. */
  lemma EmptySearchCountsEverything(index: seq<Hit>, text: TextMatch)
    ensures var r := HandleSearch(SearchQuery(None, None, None, None, None, None, None, None), b => RunSearch(index, b, text));
            && r.Payload?
            && r.value.total == |index|
            && |r.value.products| == Min(20, |index|)
            && r.value.products == ProjectAll(Window(SortNewestFirst(index), 0, 20))
            && r.value.page == Finite(1) && r.value.limit == Finite(20)
  {
    var q := SearchQuery(None, None, None, None, None, None, None, None);
    var b := Compile(q);
    var sorted := SortNewestFirst(index);
    assert |sorted| == |multiset(sorted)| == |index|;
    forall h | h in sorted ensures Eligible(h.source, b, text) {
      assert b.filter == [];
    }
    var eligible := Matching(sorted, b, text);
    assert eligible == sorted by {
      MatchingKeepsAll(sorted, b, text);
    }
  }

  /** When every hit is eligible, `Matching` keeps the whole list. */
  lemma {:induction false} MatchingKeepsAll(hs: seq<Hit>, b: SearchBody, text: TextMatch)
    requires forall h :: h in hs ==> Eligible(h.source, b, text)
    ensures Matching(hs, b, text) == hs
  {
    if hs != [] {
      MatchingKeepsAll(hs[1..], b, text);
    }
  }

  /** `esClient.get` against the store: absent ids answer 404, an unreachable store answers with no status. */
  function GetById(st: Store, id: string, reachable: bool): (r: Result<Hit, StoreError>)
    ensures r.Ok? <==> reachable && id in st
    ensures r.Ok? ==> r.value == Hit(id, st[id])
    ensures r.Fail? ==> (r.error.statusCode == Some(404) <==> reachable)
  {
    if !reachable then Fail(StoreError(None))
    else if id in st then Ok(Hit(id, st[id]))
    else Fail(StoreError(Some(404)))
  }

  /** `GET /api/products/:id`: a 404 from the store becomes 404, any other failure 500. */
  function HandleGetProduct(answer: Result<Hit, StoreError>): (r: Reply<Product>)
    ensures r.IsSuccess() <==> answer.Ok?
    ensures answer.Ok? ==> r == Payload(200, Project(answer.value))
    ensures r.ErrorReply? ==> (r.status == 404 <==> answer.error.statusCode == Some(404))
    ensures r.ErrorReply? && r.status == 404 ==> r.message == "Product not found"
    ensures r.ErrorReply? && r.status != 404 ==> r == ErrorReply(500, "Failed to fetch product")
  {
    match answer
    case Ok(hit) => Payload(200, Project(hit))
    case Fail(e) =>
      if e.statusCode == Some(404) then ErrorReply(404, "Product not found")
      else ErrorReply(500, "Failed to fetch product")
  }

  /**
   * Lookup against a store whose documents sit under their own ids: a stored id comes
   * back with that id, an absent one is "not found", and an unreachable store is never
   * reported as "not found".
   */
  lemma LookupDistinguishesNotFound(st: Store, id: string, reachable: bool)
    requires IdKeyed(st)
    ensures var r := HandleGetProduct(GetById(st, id, reachable));
            && (reachable && id in st ==> r.Payload? && r.value.id == Some(id) && r.value.(id := st[id].id) == st[id])
            && (reachable && id !in st ==> r == ErrorReply(404, "Product not found"))
            && (!reachable ==> r == ErrorReply(500, "Failed to fetch product"))
  {
  }

  /** One entry of a `terms` aggregation: a distinct value and how many documents carry it. */
  datatype Bucket = Bucket(key: string, docCount: nat)

  /** At most this many category buckets are requested. */
  const MaxCategoryBuckets: nat := 100

  function BucketKeys(bs: seq<Bucket>): (ks: seq<string>)
    ensures |ks| == |bs|
    ensures forall i :: 0 <= i < |bs| ==> ks[i] == bs[i].key
  {
    seq(|bs|, i requires 0 <= i < |bs| => bs[i].key)
  }

  /** `GET /api/products/categories`: the bucket keys in the store's order, or 500. */
  function HandleCategories(answer: Result<seq<Bucket>, StoreError>): (r: Reply<seq<string>>)
    ensures r.IsSuccess() <==> answer.Ok?
    ensures answer.Ok? ==> r == Payload(200, BucketKeys(answer.value))
    ensures answer.Fail? ==> r == ErrorReply(500, "Failed to fetch categories")
  {
    match answer
    case Ok(bs) => Payload(200, BucketKeys(bs))
    case Fail(_) => ErrorReply(500, "Failed to fetch categories")
  }

  /** What a store's `terms` aggregation on `category` promises about its buckets. */
  predicate CategoryBuckets(index: seq<Hit>, bs: seq<Bucket>) {
    && |bs| <= MaxCategoryBuckets
    && (forall i, j :: 0 <= i < j < |bs| ==> bs[i].key != bs[j].key)
    && (forall i :: 0 <= i < |bs| ==> exists h :: h in index && h.source.category == bs[i].key)
    && (|bs| < MaxCategoryBuckets ==> forall h :: h in index ==> exists i :: 0 <= i < |bs| && bs[i].key == h.source.category)
  }

  /** The category list names each category once, only categories some document has, and all of them when fewer than 100. */
  lemma CategoriesAreDistinctLabels(index: seq<Hit>, bs: seq<Bucket>)
    requires CategoryBuckets(index, bs)
    ensures var r := HandleCategories(Ok(bs));
            && r.Payload?
            && (forall i, j :: 0 <= i < j < |r.value| ==> r.value[i] != r.value[j])
            && (forall c :: c in r.value ==> exists h :: h in index && h.source.category == c)
            && (|bs| < MaxCategoryBuckets ==> forall h :: h in index ==> h.source.category in r.value)
  {
    var ks := BucketKeys(bs);
    forall c | c in ks ensures exists h :: h in index && h.source.category == c {
      var i :| 0 <= i < |ks| && ks[i] == c;
      assert bs[i].key == c;
    }
    if |bs| < MaxCategoryBuckets {
      forall h | h in index ensures h.source.category in ks {
        var i :| 0 <= i < |bs| && bs[i].key == h.source.category;
        assert ks[i] == h.source.category;
      }
    }
  }
}
