/**
 * An abstract store search over an index snapshot: keep the eligible documents, order
 * them newest first, and cut the `[from, from + size)` window; `total` counts every
 * eligible document, not just the window.
 */
module SearchEngine {
  import opened Wrappers
  import opened Decimal
  import opened Catalog
  import opened QueryBuilder
  import opened QueryEval

  /** A raw store hit: the storage key `_id` and the stored document `_source`. */
  datatype Hit = Hit(key: string, source: Product)

  datatype SearchHits = SearchHits(hits: seq<Hit>, total: nat)

  /** A failed store call, with the HTTP status the store answered, if any. */
  datatype StoreError = StoreError(statusCode: Option<int>)

  predicate NewestFirst(hs: seq<Hit>) {
    forall i, j :: 0 <= i < j < |hs| ==> hs[i].source.createdAt >= hs[j].source.createdAt
  }

  function InsertNewest(h: Hit, hs: seq<Hit>): (r: seq<Hit>)
    requires NewestFirst(hs)
    ensures NewestFirst(r)
    ensures multiset(r) == multiset(hs) + multiset{h}
    ensures forall x :: x in r ==> x in hs || x == h
  {
    if hs == [] then [h]
    else if h.source.createdAt >= hs[0].source.createdAt then [h] + hs
    else
      var rest := InsertNewest(h, hs[1..]);
      assert hs == [hs[0]] + hs[1..];
      assert multiset(hs) == multiset{hs[0]} + multiset(hs[1..]);
      HeadIsNewest(hs);
      NewestCons(hs[0], rest);
      [hs[0]] + rest
  }

  lemma HeadIsNewest(hs: seq<Hit>)
    requires hs != [] && NewestFirst(hs)
    ensures NewestFirst(hs[1..])
    ensures forall x :: x in hs[1..] ==> x.source.createdAt <= hs[0].source.createdAt
  {
    forall x | x in hs[1..] ensures x.source.createdAt <= hs[0].source.createdAt {
      var i :| 0 <= i < |hs[1..]| && hs[1..][i] == x;
      assert hs[i + 1] == x;
    }
  }

  lemma NewestCons(x: Hit, rest: seq<Hit>)
    requires NewestFirst(rest)
    requires forall y :: y in rest ==> y.source.createdAt <= x.source.createdAt
    ensures NewestFirst([x] + rest)
  {
    var r := [x] + rest;
    forall i, j | 0 <= i < j < |r| ensures r[i].source.createdAt >= r[j].source.createdAt {
      assert r[j] == rest[j - 1];
      if i > 0 {
        assert r[i] == rest[i - 1];
      }
    }
  }

  /** The `createdAt` descending order the search body asks for (ties in one admissible order). */
  function SortNewestFirst(hs: seq<Hit>): (r: seq<Hit>)
    ensures NewestFirst(r)
    ensures multiset(r) == multiset(hs)
  {
    if hs == [] then []
    else
      assert hs == [hs[0]] + hs[1..];
      InsertNewest(hs[0], SortNewestFirst(hs[1..]))
  }

  /** The hits whose documents pass the compiled query, in their original order. */
  function Matching(hs: seq<Hit>, b: SearchBody, text: TextMatch): (r: seq<Hit>)
    ensures |r| <= |hs|
    ensures forall h :: h in r <==> h in hs && Eligible(h.source, b, text)
    ensures NewestFirst(hs) ==> NewestFirst(r)
  {
    if hs == [] then []
    else
      var rest := Matching(hs[1..], b, text);
      assert forall h :: h in hs <==> h == hs[0] || h in hs[1..];
      if Eligible(hs[0].source, b, text) then [hs[0]] + rest else rest
  }

  /** `Matching` keeps every eligible hit as often as it occurs and drops every other one. */
  lemma {:induction false} MatchingCounts(hs: seq<Hit>, b: SearchBody, text: TextMatch)
    ensures forall h :: multiset(Matching(hs, b, text))[h] == if Eligible(h.source, b, text) then multiset(hs)[h] else 0
  {
    if hs != [] {
      var rest := Matching(hs[1..], b, text);
      MatchingCounts(hs[1..], b, text);
      assert hs == [hs[0]] + hs[1..];
      assert multiset(hs) == multiset{hs[0]} + multiset(hs[1..]);
      if Eligible(hs[0].source, b, text) {
        assert multiset(Matching(hs, b, text)) == multiset{hs[0]} + multiset(rest);
      } else {
        assert Matching(hs, b, text) == rest;
      }
    }
  }

  /** Filtering distributes over concatenation, so `Matching` keeps the relative order of the hits it keeps. */
  lemma {:induction false} MatchingAppend(a: seq<Hit>, c: seq<Hit>, b: SearchBody, text: TextMatch)
    ensures Matching(a + c, b, text) == Matching(a, b, text) + Matching(c, b, text)
  {
    if a != [] {
      assert (a + c)[0] == a[0];
      assert (a + c)[1..] == a[1..] + c;
      MatchingAppend(a[1..], c, b, text);
      var ra, rc := Matching(a[1..], b, text), Matching(c, b, text);
      if Eligible(a[0].source, b, text) {
        assert Matching(a + c, b, text) == [a[0]] + (ra + rc);
        assert Matching(a, b, text) == [a[0]] + ra;
        assert [a[0]] + (ra + rc) == ([a[0]] + ra) + rc;
      } else {
        assert Matching(a + c, b, text) == ra + rc;
        assert Matching(a, b, text) == ra;
      }
    } else {
      assert a + c == c;
    }
  }

  /** Two bodies with the same clauses admit the same hits, whatever their paging. */
  lemma {:induction false} MatchingIgnoresPaging(hs: seq<Hit>, b1: SearchBody, b2: SearchBody, text: TextMatch)
    requires b1.must == b2.must && b1.filter == b2.filter
    ensures Matching(hs, b1, text) == Matching(hs, b2, text)
  {
    if hs != [] {
      MatchingIgnoresPaging(hs[1..], b1, b2, text);
    }
  }

  /** Positions of the index whose documents pass the compiled query. */
  function EligiblePositions(index: seq<Hit>, b: SearchBody, text: TextMatch): set<int> {
    set i | 0 <= i < |index| && Eligible(index[i].source, b, text)
  }

  /** The number of hits `Matching` keeps is the number of eligible positions of the index. */
  lemma {:induction false} EligibleCount(index: seq<Hit>, b: SearchBody, text: TextMatch)
    ensures |Matching(index, b, text)| == |EligiblePositions(index, b, text)|
  {
    if index != [] {
      var n := |index| - 1;
      var front := index[..n];
      assert index == front + [index[n]];
      EligibleCount(front, b, text);
      MatchingAppend(front, [index[n]], b, text);
      PositionsSnoc(index, b, text);
      var last := Matching([index[n]], b, text);
      assert [index[n]][1..] == [];
      assert |last| == if Eligible(index[n].source, b, text) then 1 else 0;
      assert |Matching(index, b, text)| == |Matching(front, b, text)| + |last|;
    }
  }

  /** The eligible positions of a list are those of its front, plus its last position when that hit is eligible. */
  lemma PositionsSnoc(index: seq<Hit>, b: SearchBody, text: TextMatch)
    requires index != []
    ensures var n := |index| - 1;
            var front := EligiblePositions(index[..n], b, text);
            && n !in front
            && EligiblePositions(index, b, text) == (if Eligible(index[n].source, b, text) then front + {n} else front)
            && |EligiblePositions(index, b, text)| == |front| + if Eligible(index[n].source, b, text) then 1 else 0
  {
  }

  /** Reordering the index does not change which hits, or how many of each, pass the query. */
  lemma MatchingPermutation(a: seq<Hit>, c: seq<Hit>, b: SearchBody, text: TextMatch)
    requires multiset(a) == multiset(c)
    ensures multiset(Matching(a, b, text)) == multiset(Matching(c, b, text))
  {
    MatchingCounts(a, b, text);
    MatchingCounts(c, b, text);
    var ma := multiset(Matching(a, b, text));
    var mc := multiset(Matching(c, b, text));
    forall h: Hit ensures ma[h] == mc[h] {
    }
  }

  /**
   * The result list of a search: the eligible documents, newest first. Each eligible
   * document of the index occurs in it as often as in the index, so its length is the
   * number of eligible positions.
   */
  function Ranked(index: seq<Hit>, b: SearchBody, text: TextMatch): (e: seq<Hit>)
    ensures NewestFirst(e)
    ensures multiset(e) == multiset(Matching(index, b, text))
    ensures |e| == |EligiblePositions(index, b, text)|
  {
    var sorted := SortNewestFirst(index);
    MatchingPermutation(sorted, index, b, text);
    EligibleCount(index, b, text);
    var e := Matching(sorted, b, text);
    assert |e| == |multiset(e)| == |multiset(Matching(index, b, text))| == |Matching(index, b, text)|;
    e
  }

  function Min(a: int, b: int): int {
    if a <= b then a else b
  }

  /** `from`/`size` paging: the elements of `s` at positions `from` up to `from + size`. */
  function Window<T>(s: seq<T>, from: nat, size: nat): (w: seq<T>)
    ensures |w| == if from >= |s| then 0 else Min(size, |s| - from)
    ensures forall i :: 0 <= i < |w| ==> w[i] == s[from + i]
  {
    if from >= |s| then [] else s[from..Min(from + size, |s|)]
  }

  /**
   * Run the compiled body against an index snapshot; a NaN or negative `from`/`size` is
   * rejected. `total` counts every eligible document, and the hits are the
   * `[from, from + size)` window of the result list.
   */
  function RunSearch(index: seq<Hit>, b: SearchBody, text: TextMatch): (r: Result<SearchHits, StoreError>)
    ensures r.Ok? <==> b.from.Finite? && b.from.v >= 0 && b.size.Finite? && b.size.v >= 0
    ensures r.Fail? ==> r.error.statusCode == Some(400)
    ensures r.Ok? ==> r.value.total == |EligiblePositions(index, b, text)|
    ensures r.Ok? ==> r.value.hits == Window(Ranked(index, b, text), b.from.v, b.size.v)
    ensures r.Ok? ==> |r.value.hits| <= b.size.v && r.value.total <= |index|
    ensures r.Ok? ==> NewestFirst(r.value.hits)
    ensures r.Ok? ==> forall h :: h in r.value.hits ==> h in index && Eligible(h.source, b, text)
  {
    if b.from.NaN? || b.from.v < 0 || b.size.NaN? || b.size.v < 0 then Fail(StoreError(Some(400)))
    else
      RankedWindow(index, b, text, b.from.v, b.size.v);
      var eligible := Ranked(index, b, text);
      Ok(SearchHits(Window(eligible, b.from.v, b.size.v), |eligible|))
  }

  /** Any window of the result list is short enough, newest first, and drawn from the eligible documents of the index. */
  lemma RankedWindow(index: seq<Hit>, b: SearchBody, text: TextMatch, from: nat, size: nat)
    ensures var w := Window(Ranked(index, b, text), from, size);
            && |w| <= size
            && NewestFirst(w)
            && (forall h :: h in w ==> h in index && Eligible(h.source, b, text))
    ensures |EligiblePositions(index, b, text)| <= |index|
  {
    var e := Ranked(index, b, text);
    EligibleCount(index, b, text);
    var w := Window(e, from, size);
    WindowFacts(index, b, text, e, w, from);
  }

  /** A window of the result list is newest first and holds only eligible documents of the index. */
  lemma WindowFacts(index: seq<Hit>, b: SearchBody, text: TextMatch, e: seq<Hit>, w: seq<Hit>, from: nat)
    requires NewestFirst(e) && multiset(e) == multiset(Matching(index, b, text))
    requires forall i :: 0 <= i < |w| ==> from + i < |e| && w[i] == e[from + i]
    ensures NewestFirst(w)
    ensures forall h :: h in w ==> h in index && Eligible(h.source, b, text)
  {
    forall h | h in w ensures h in index && Eligible(h.source, b, text) {
      var i :| 0 <= i < |w| && w[i] == h;
      assert e[from + i] == h;
      assert h in multiset(e);
      assert h in Matching(index, b, text);
    }
  }

  /** Where pages 1..m of `limit` results end, counted page by page. */
  function PagesEnd(m: nat, limit: nat): nat {
    if m == 0 then 0 else PagesEnd(m - 1, limit) + limit
  }

  /** Where page `k` (from 1) of `limit` results starts: the end of the pages before it. */
  function PageStart(k: nat, limit: nat): nat
    requires k >= 1
  {
    PagesEnd(k - 1, limit)
  }

  /** Counted page by page, pages 1..m end at `m * limit`. */
  lemma {:induction false} PagesEndIsProduct(m: nat, limit: nat)
    ensures PagesEnd(m, limit) == m * limit
  {
    if m > 0 {
      PagesEndIsProduct(m - 1, limit);
      MulStep(m, limit);
    }
  }

  lemma MulStep(m: nat, limit: nat)
    requires m > 0
    ensures m * limit == (m - 1) * limit + limit
  {
  }

  /** How many pages of `limit` results hold `n` results: `ceil(n / limit)`. */
  function PageCount(n: nat, limit: nat): nat
    requires limit > 0
  {
    (n + limit - 1) / limit
  }

  /** `Pages(s, limit, m)`: pages 1..m of `s`, each `limit` long, laid end to end. */
  function Pages<T>(s: seq<T>, limit: nat, m: nat): seq<T> {
    if m == 0 then [] else Pages(s, limit, m - 1) + Window(s, PageStart(m, limit), limit)
  }

  /** Consecutive pages neither overlap nor skip: pages 1..m are exactly the elements before the end of page m. */
  lemma {:induction false} PagesArePrefix<T>(s: seq<T>, limit: nat, m: nat)
    ensures Pages(s, limit, m) == s[..Min(PagesEnd(m, limit), |s|)]
  {
    if m > 0 {
      PagesArePrefix(s, limit, m - 1);
      PageAppends(s, PagesEnd(m - 1, limit), limit);
    }
  }

  /** The prefix up to one page's start, followed by that page, is the prefix up to its end. */
  lemma PageAppends<T>(s: seq<T>, start: nat, limit: nat)
    ensures s[..Min(start, |s|)] + Window(s, start, limit) == s[..Min(start + limit, |s|)]
  {
    if start < |s| {
      assert s[..start] + s[start..Min(start + limit, |s|)] == s[..Min(start + limit, |s|)];
    }
  }

  /** With `ceil(total / limit)` pages every element is fetched once, in order. */
  lemma AllPagesCoverResult<T>(s: seq<T>, limit: nat)
    requires limit > 0
    ensures Pages(s, limit, PageCount(|s|, limit)) == s
  {
    var m := PageCount(|s|, limit);
    PagesArePrefix(s, limit, m);
    PagesEndIsProduct(m, limit);
    assert m * limit >= |s|;
  }
}
