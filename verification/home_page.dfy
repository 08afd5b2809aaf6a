/**
 * The search page: search results, a loading flag, whether a search has run, and the
 * ids of the signed-in user's favorites, which each result card marks.
 */
module HomePage {
  import opened Wrappers
  import opened Http
  import opened Catalog
  import SearchService
  import UserService

  datatype HomeState = HomeState(products: seq<Product>, loading: bool, favorites: seq<string>, searchPerformed: bool)

  function Initial(): HomeState {
    HomeState([], false, [], false)
  }

  /** Results only ever come from a search. */
  predicate Consistent(s: HomeState) {
    s.products != [] ==> s.searchPerformed
  }

  predicate NoDuplicates(ids: seq<string>) {
    forall i, j :: 0 <= i < j < |ids| ==> ids[i] != ids[j]
  }

  /** `favorites.includes(product.id)`: a product without an id is never among the favorites. */
  predicate IsFavorite(favorites: seq<string>, id: Option<string>) {
    id.Some? && id.value in favorites
  }

  // ---------------------------------------------------------------------------
  // Favorites

  /** The product ids of the rows the favorites endpoint returns, in its order. */
  function ProductIds(rows: seq<UserService.FavoriteRow>): (ids: seq<string>)
    ensures |ids| == |rows|
    ensures forall i :: 0 <= i < |rows| ==> ids[i] == rows[i].productId
  {
    seq(|rows|, i requires 0 <= i < |rows| => rows[i].productId)
  }

  /** `loadFavorites` on mount: only for a signed-in user, and only when the request succeeds. */
  function LoadFavorites(s: HomeState, isAuthenticated: bool, reply: Reply<seq<UserService.FavoriteRow>>): (r: HomeState)
    ensures r.products == s.products && r.loading == s.loading && r.searchPerformed == s.searchPerformed
    ensures isAuthenticated && reply.IsSuccess() ==> r.favorites == ProductIds(reply.value)
    ensures !(isAuthenticated && reply.IsSuccess()) ==> r == s
  {
    if isAuthenticated && reply.IsSuccess() then s.(favorites := ProductIds(reply.value)) else s
  }

  /** `favorites.filter(id => id !== productId)`. */
  function Remove(ids: seq<string>, id: string): (r: seq<string>)
    ensures forall x :: x in r <==> x in ids && x != id
    ensures |r| <= |ids|
    ensures NoDuplicates(ids) ==> NoDuplicates(r)
  {
    if ids == [] then []
    else
      var rest := Remove(ids[1..], id);
      assert forall x :: x in ids <==> x == ids[0] || x in ids[1..];
      if ids[0] == id then rest
      else
        assert NoDuplicates(ids) ==> ids[0] !in ids[1..];
        [ids[0]] + rest
  }

  /**
   * `handleAddToFavorites`: a favorite is removed everywhere, a non-favorite appended at the
   * end, each only once the server call has succeeded (`done`). A product without an id is
   * refused by the server, so nothing changes.
   */
  function ToggleFavorite(favorites: seq<string>, id: Option<string>, done: bool): (r: seq<string>)
    ensures !done || id.None? ==> r == favorites
    ensures done && id.Some? ==> (IsFavorite(r, id) <==> !IsFavorite(favorites, id))
    ensures id.Some? ==> forall x :: x != id.value ==> (x in r <==> x in favorites)
    ensures done && id.Some? && id.value !in favorites ==> |r| == |favorites| + 1 && r[..|favorites|] == favorites && r[|favorites|..] == [id.value]
    ensures done && id.Some? && id.value in favorites ==> r == Remove(favorites, id.value)
    ensures NoDuplicates(favorites) ==> NoDuplicates(r)
  {
    if !done || id.None? then favorites
    else if id.value in favorites then Remove(favorites, id.value)
    else favorites + [id.value]
  }

  /** Favoriting a product and then unfavoriting it restores the list exactly. */
  lemma ToggleTwiceRestores(favorites: seq<string>, id: string)
    requires id !in favorites
    ensures ToggleFavorite(ToggleFavorite(favorites, Some(id), true), Some(id), true) == favorites
  {
    RemoveAbsent(favorites, id);
    RemoveAppended(favorites, id);
  }

  lemma {:induction false} RemoveAbsent(ids: seq<string>, id: string)
    requires id !in ids
    ensures Remove(ids, id) == ids
  {
    if ids != [] {
      RemoveAbsent(ids[1..], id);
    }
  }

  lemma {:induction false} RemoveAppended(ids: seq<string>, id: string)
    ensures Remove(ids + [id], id) == Remove(ids, id)
  {
    if ids == [] {
      assert Remove([id], id) == Remove([], id);
    } else {
      assert (ids + [id])[1..] == ids[1..] + [id];
      RemoveAppended(ids[1..], id);
    }
  }

  /** Unfavoriting keeps the remaining favorites in their order. */
  lemma {:induction false} RemoveKeepsOrder(ids: seq<string>, id: string, i: nat, j: nat)
    requires i < j < |ids| && ids[i] != id && ids[j] != id
    ensures exists a, b :: 0 <= a < b < |Remove(ids, id)| && Remove(ids, id)[a] == ids[i] && Remove(ids, id)[b] == ids[j]
  {
    var rest := Remove(ids[1..], id);
    if i == 0 {
      assert ids[1..][j - 1] == ids[j];
      assert ids[j] in rest;
      var b :| 0 <= b < |rest| && rest[b] == ids[j];
      assert Remove(ids, id) == [ids[0]] + rest;
      assert Remove(ids, id)[0] == ids[0] && Remove(ids, id)[b + 1] == ids[j];
    } else {
      RemoveKeepsOrder(ids[1..], id, i - 1, j - 1);
      var a, b :| 0 <= a < b < |rest| && rest[a] == ids[1..][i - 1] && rest[b] == ids[1..][j - 1];
      if ids[0] == id {
        assert Remove(ids, id) == rest;
      } else {
        assert Remove(ids, id) == [ids[0]] + rest;
        assert Remove(ids, id)[a + 1] == rest[a] && Remove(ids, id)[b + 1] == rest[b];
      }
    }
  }

  // ---------------------------------------------------------------------------
  // Searching

  /** `handleSearch` before the request returns: the loading panel is up and a search has been performed. */
  function StartSearch(s: HomeState): (r: HomeState)
    ensures r.loading && r.searchPerformed
    ensures r.products == s.products && r.favorites == s.favorites
  {
    s.(loading := true, searchPerformed := true)
  }

  /** `handleSearch` once the request returns: the results on success, the old ones on failure; loading ends either way. */
  function FinishSearch(s: HomeState, reply: Reply<SearchService.SearchPage>): (r: HomeState)
    ensures !r.loading
    ensures r.products == (if reply.IsSuccess() then reply.value.products else s.products)
    ensures r.favorites == s.favorites && r.searchPerformed == s.searchPerformed
  {
    s.(products := if reply.IsSuccess() then reply.value.products else s.products, loading := false)
  }

  lemma SearchKeepsConsistent(s: HomeState, reply: Reply<SearchService.SearchPage>)
    requires Consistent(s)
    ensures Consistent(StartSearch(s))
    ensures Consistent(FinishSearch(StartSearch(s), reply))
  {
  }

  // ---------------------------------------------------------------------------
  // View

  datatype Card = Card(product: Product, isFavorited: bool, isAuthenticated: bool)

  datatype HomeView = HomeView(loadingPanel: bool, noResultsPanel: bool, startPanel: bool, grid: Option<seq<Card>>)

  function Cards(s: HomeState, isAuthenticated: bool): (cs: seq<Card>)
    ensures |cs| == |s.products|
    ensures forall i :: 0 <= i < |cs| ==> cs[i] == Card(s.products[i], IsFavorite(s.favorites, s.products[i].id), isAuthenticated)
  {
    seq(|s.products|, i requires 0 <= i < |s.products| => Card(s.products[i], IsFavorite(s.favorites, s.products[i].id), isAuthenticated))
  }

  /** What the page renders below the form. */
  function View(s: HomeState, isAuthenticated: bool): (v: HomeView)
    ensures v.loadingPanel <==> s.loading
    ensures v.noResultsPanel <==> !s.loading && s.searchPerformed && s.products == []
    ensures v.startPanel <==> !s.loading && !s.searchPerformed
    ensures v.grid.Some? <==> !s.loading && s.products != []
    ensures v.grid.Some? ==> v.grid.value == Cards(s, isAuthenticated)
  {
    HomeView(s.loading, !s.loading && s.searchPerformed && |s.products| == 0, !s.loading && !s.searchPerformed,
      if !s.loading && |s.products| > 0 then Some(Cards(s, isAuthenticated)) else None)
  }

  function PanelCount(v: HomeView): nat {
    (if v.loadingPanel then 1 else 0) + (if v.noResultsPanel then 1 else 0)
    + (if v.startPanel then 1 else 0) + (if v.grid.Some? then 1 else 0)
  }

  /** In every reachable state exactly one of the loading, no-results, start and results panels shows. */
  lemma ExactlyOnePanel(s: HomeState, isAuthenticated: bool)
    requires Consistent(s)
    ensures PanelCount(View(s, isAuthenticated)) == 1
  {
  }

  // ---------------------------------------------------------------------------
  // Agreement with the server

  /** The page's favorites are exactly the products the server holds for the user. */
  ghost predicate Synced(favorites: seq<string>, db: UserService.Db, uid: int) {
    forall pid :: pid in favorites <==> UserService.HasPair(db.favorites, uid, pid)
  }

  /** Loading the favorites from the server brings the page in line with it. */
  lemma LoadSyncs(s: HomeState, db: UserService.Db, uid: int)
    ensures var r := UserService.ListFavorites(db, UserService.Authenticated(uid), false);
            Synced(LoadFavorites(s, true, r).favorites, db, uid)
  {
    var r := UserService.ListFavorites(db, UserService.Authenticated(uid), false);
    var ids := LoadFavorites(s, true, r).favorites;
    forall pid ensures pid in ids <==> UserService.HasPair(db.favorites, uid, pid) {
      if pid in ids {
        var i :| 0 <= i < |ids| && ids[i] == pid;
        assert r.value[i] in db.favorites;
        var j :| 0 <= j < |db.favorites| && db.favorites[j] == r.value[i];
      }
      if UserService.HasPair(db.favorites, uid, pid) {
        var j :| 0 <= j < |db.favorites| && db.favorites[j].userId == uid && db.favorites[j].productId == pid;
        assert db.favorites[j] in r.value;
        var i :| 0 <= i < |r.value| && r.value[i] == db.favorites[j];
        assert ids[i] == pid;
      }
    }
  }

  /**
   * A toggle keeps page and server in agreement: the page sends a delete for a product it
   * shows as favorite and an add otherwise, and applies the change only when the server
   * reports success.
   */
  lemma ToggleKeepsSync(favorites: seq<string>, db: UserService.Db, uid: int, p: Product, fault: bool)
    requires Synced(favorites, db, uid)
    requires p.id.Some?
    ensures var pid := p.id.value;
            var (db', reply) := if pid in favorites
              then var (d, r) := UserService.RemoveFavorite(db, UserService.Authenticated(uid), pid, fault); (d, r.IsSuccess())
              else var (d, r) := UserService.AddFavorite(db, UserService.Authenticated(uid), Some(pid), Some(p), fault); (d, r.IsSuccess());
            Synced(ToggleFavorite(favorites, p.id, reply), db', uid)
  {
    var pid := p.id.value;
    if pid in favorites {
      var (d, r) := UserService.RemoveFavorite(db, UserService.Authenticated(uid), pid, fault);
      if r.IsSuccess() {
        forall x ensures x in ToggleFavorite(favorites, p.id, true) <==> UserService.HasPair(d.favorites, uid, x) {
          if UserService.HasPair(db.favorites, uid, x) && x != pid {
            var j :| 0 <= j < |db.favorites| && db.favorites[j].userId == uid && db.favorites[j].productId == x;
            assert db.favorites[j] in d.favorites;
          }
          if UserService.HasPair(d.favorites, uid, x) {
            var j :| 0 <= j < |d.favorites| && d.favorites[j].userId == uid && d.favorites[j].productId == x;
            assert d.favorites[j] in db.favorites;
          }
        }
      }
    } else {
      var (d, r) := UserService.AddFavorite(db, UserService.Authenticated(uid), Some(pid), Some(p), fault);
      if r.IsSuccess() {
        forall x ensures x in ToggleFavorite(favorites, p.id, true) <==> UserService.HasPair(d.favorites, uid, x) {
          if UserService.HasPair(d.favorites, uid, x) && x != pid {
            var j :| 0 <= j < |d.favorites| && d.favorites[j].userId == uid && d.favorites[j].productId == x;
            assert j < |db.favorites|;
            assert db.favorites[j] == d.favorites[j];
          }
          if UserService.HasPair(db.favorites, uid, x) {
            var j :| 0 <= j < |db.favorites| && db.favorites[j].userId == uid && db.favorites[j].productId == x;
            assert d.favorites[j] == db.favorites[j];
          }
          if x == pid {
            assert d.favorites[|db.favorites|] == r.value;
          }
        }
      }
    }
  }
}
