/**
 * The favorites page: the signed-in user's favorite rows as the favorites endpoint returned
 * them, a loading flag, and the remove button on each card.
 */
module FavoritesPage {
  import opened Wrappers
  import opened Http
  import opened Catalog
  import opened UserService

  datatype FavState = FavState(favorites: seq<FavoriteRow>, loading: bool)

  /** The page opens with an empty list and the loading panel up. */
  function Initial(): (s: FavState)
    ensures s.loading && s.favorites == []
  {
    FavState([], true)
  }

  /** `loadFavorites`: the rows on success, the current list on failure; loading ends either way. */
  function Load(s: FavState, reply: Reply<seq<FavoriteRow>>): (r: FavState)
    ensures !r.loading
    ensures reply.IsSuccess() ==> r.favorites == reply.value
    ensures !reply.IsSuccess() ==> r.favorites == s.favorites
  {
    FavState(if reply.IsSuccess() then reply.value else s.favorites, false)
  }

  lemma NewestFirstTail(fs: seq<FavoriteRow>)
    requires fs != [] && NewestFirst(fs)
    ensures NewestFirst(fs[1..])
    ensures forall f :: f in fs[1..] ==> f.createdAt < fs[0].createdAt
  {
    forall f | f in fs[1..] ensures f.createdAt < fs[0].createdAt {
      var i :| 0 <= i < |fs[1..]| && fs[1..][i] == f;
      assert fs[i + 1] == f;
    }
  }

  lemma NewestFirstCons(x: FavoriteRow, rest: seq<FavoriteRow>)
    requires NewestFirst(rest)
    requires forall f :: f in rest ==> f.createdAt < x.createdAt
    ensures NewestFirst([x] + rest)
  {
    var r := [x] + rest;
    forall i, j | 0 <= i < j < |r| ensures r[i].createdAt > r[j].createdAt {
      assert r[j] == rest[j - 1];
      if i > 0 {
        assert r[i] == rest[i - 1];
      }
    }
  }

  /** `favorites.filter(f => f.product_id !== productId)`. */
  function Drop(fs: seq<FavoriteRow>, productId: string): (r: seq<FavoriteRow>)
    ensures forall f :: f in r <==> f in fs && f.productId != productId
    ensures NewestFirst(fs) ==> NewestFirst(r)
    decreases |fs|
  {
    if fs == [] then []
    else
      var rest := Drop(fs[1..], productId);
      assert forall f :: f in fs <==> f == fs[0] || f in fs[1..];
      if fs[0].productId == productId then rest
      else if NewestFirst(fs) then
        NewestFirstTail(fs);
        NewestFirstCons(fs[0], rest);
        [fs[0]] + rest
      else [fs[0]] + rest
  }

  /** `handleRemoveFavorite`: the product's rows leave the list once the server confirms (`done`). */
  function HandleRemove(s: FavState, productId: string, done: bool): (r: FavState)
    ensures r.loading == s.loading
    ensures !done ==> r == s
    ensures done ==> forall f :: f in r.favorites <==> f in s.favorites && f.productId != productId
  {
    if done then s.(favorites := Drop(s.favorites, productId)) else s
  }

  // ---------------------------------------------------------------------------
  // View

  /** A card shows the stored product data, is always marked favorite, and its button removes `productId`. */
  datatype FavCard = FavCard(product: Option<Product>, productId: string, isFavorited: bool, isAuthenticated: bool)

  datatype FavView = FavView(loadingPanel: bool, emptyPanel: bool, grid: Option<seq<FavCard>>)

  function CardOf(f: FavoriteRow): FavCard {
    FavCard(f.productData, f.productId, true, true)
  }

  function View(s: FavState): (v: FavView)
    ensures v.grid.Some? ==> |v.grid.value| == |s.favorites|
    ensures v.grid.Some? ==> forall i :: 0 <= i < |s.favorites| ==> v.grid.value[i] == CardOf(s.favorites[i])
  {
    FavView(s.loading, !s.loading && |s.favorites| == 0,
      if !s.loading && |s.favorites| > 0
      then Some(seq(|s.favorites|, i requires 0 <= i < |s.favorites| => CardOf(s.favorites[i])))
      else None)
  }

  function PanelCount(v: FavView): nat {
    (if v.loadingPanel then 1 else 0) + (if v.emptyPanel then 1 else 0) + (if v.grid.Some? then 1 else 0)
  }

  /**
   * Exactly one of the loading, empty and grid panels shows; the empty panel shows exactly
   * when loading is over and nothing is listed, and every card offers removal of its own row.
   */
  lemma ExactlyOnePanel(s: FavState)
    ensures PanelCount(View(s)) == 1
    ensures View(s).emptyPanel <==> !s.loading && s.favorites == []
    ensures View(s).grid.Some? <==> !s.loading && s.favorites != []
    ensures View(s).grid.Some? ==> forall c :: c in View(s).grid.value ==> c.isFavorited && c.isAuthenticated
  {
  }

  // ---------------------------------------------------------------------------
  // Agreement with the server

  /** Two lists, each strictly newest first, with the same rows start with the same row. */
  lemma HeadsAgree(a: seq<FavoriteRow>, b: seq<FavoriteRow>)
    requires NewestFirst(a) && NewestFirst(b)
    requires forall f :: f in a <==> f in b
    requires a != []
    ensures b != [] && a[0] == b[0]
  {
    assert a[0] in b;
    var k :| 0 <= k < |b| && b[k] == a[0];
    assert b[0] in a;
    var m :| 0 <= m < |a| && a[m] == b[0];
    assert a[0].createdAt >= a[m].createdAt;
    assert b[0].createdAt >= b[k].createdAt;
    assert k == 0;
  }

  /** Two lists, each strictly newest first, with the same rows are the same list. */
  lemma {:induction false} NewestFirstDetermined(a: seq<FavoriteRow>, b: seq<FavoriteRow>)
    requires NewestFirst(a) && NewestFirst(b)
    requires forall f :: f in a <==> f in b
    ensures a == b
    decreases |a|
  {
    assert b != [] ==> b[0] in a;
    if a != [] {
      HeadsAgree(a, b);
      NewestFirstTail(a);
      NewestFirstTail(b);
      forall f ensures f in a[1..] <==> f in b[1..] {
        assert f in a <==> f == a[0] || f in a[1..];
        assert f in b <==> f == b[0] || f in b[1..];
      }
      NewestFirstDetermined(a[1..], b[1..]);
      assert a == [a[0]] + a[1..];
      assert b == [b[0]] + b[1..];
    }
  }

  /**
   * After the page loads the list and then removes a product, it shows exactly the list the
   * server would now return: the same rows in the same order.
   */
  lemma RemoveMatchesServer(db: Db, uid: int, productId: string)
    requires Valid(db)
    ensures var loaded := Load(Initial(), ListFavorites(db, Authenticated(uid), false));
            var (db', reply) := RemoveFavorite(db, Authenticated(uid), productId, false);
            HandleRemove(loaded, productId, reply.IsSuccess()).favorites == ListFavorites(db', Authenticated(uid), false).value
  {
    var listed := ListFavorites(db, Authenticated(uid), false).value;
    var (db', reply) := RemoveFavorite(db, Authenticated(uid), productId, false);
    RemoveFavoriteKeepsValid(db, Authenticated(uid), productId, false);
    var page := Drop(listed, productId);
    var server := ListFavorites(db', Authenticated(uid), false).value;
    assert HandleRemove(Load(Initial(), ListFavorites(db, Authenticated(uid), false)), productId, true).favorites == page;
    NewestFirstDetermined(page, server);
  }
}
