/** Favorites: per user, an insertion-ordered list of asset ids without
    repeats. `/fav` adds, `/unfav` removes. */
module Favorites {
  import opened Common

  /** Every user's favorites, in the order they were added. */
  type FavoriteTable = map<UserId, seq<AssetId>>

  /** A user's favorites; a user without an entry has none. */
  function FavoritesOf(f: FavoriteTable, u: UserId): seq<AssetId>
  {
    if u in f then f[u] else []
  }

  /** What the handlers keep true: every entry is a non-empty list without
      repeats. */
  predicate WellFormed(f: FavoriteTable)
  {
    forall u | u in f :: f[u] != [] && NoDup(f[u])
  }

  /** `/fav <asset>`: an asset the price service does not list (`listed` is
      its answer) is not found; one already in the list is reported as
      already present and nothing changes; otherwise it is appended. */
  function AddFavorite(f: FavoriteTable, u: UserId, asset: AssetId, listed: bool): (r: Step<FavoriteTable>)
    ensures r.outcome == (if !listed then NotFound else if asset in FavoritesOf(f, u) then AlreadyPresent else Ok)
    ensures r.outcome != Ok ==> r.after == f
    ensures r.outcome == Ok ==> u in r.after && r.after[u] == FavoritesOf(f, u) + [asset]
    ensures r.after - {u} == f - {u}
    ensures WellFormed(f) ==> WellFormed(r.after)
  {
    if !listed then Step(f, NotFound)
    else
      var favs := FavoritesOf(f, u);
      if asset in favs then Step(f, AlreadyPresent)
      else
        var r := Step(f[u := favs + [asset]], Ok);
        assert WellFormed(f) ==> WellFormed(r.after) by {
          if WellFormed(f) {
            forall i, j | 0 <= i < j < |favs + [asset]| ensures (favs + [asset])[i] != (favs + [asset])[j] {
              if j == |favs| { assert (favs + [asset])[i] == favs[i]; }
            }
          }
        }
        r
  }

  /** Adding the same favorite twice: the second add reports that it is
      already present and leaves the table as the first add left it, so the
      asset occurs exactly once. */
  lemma AddFavoriteIdempotent(f: FavoriteTable, u: UserId, asset: AssetId)
    requires WellFormed(f)
    ensures var once := AddFavorite(f, u, asset, true).after;
            && AddFavorite(once, u, asset, true) == Step(once, AlreadyPresent)
            && asset in FavoritesOf(once, u)
            && NoDup(FavoritesOf(once, u))
  {
    var once := AddFavorite(f, u, asset, true).after;
    assert asset in FavoritesOf(once, u) by {
      if asset !in FavoritesOf(f, u) { assert once[u][|once[u]| - 1] == asset; }
    }
  }

  /** `/unfav <asset>`: an asset not in the user's list is not found;
      otherwise it is removed (`list.remove`), the other favorites keep their
      order, and the user's entry is dropped once it is empty. */
  function RemoveFavorite(f: FavoriteTable, u: UserId, asset: AssetId): (r: Step<FavoriteTable>)
    ensures r.outcome == (if asset in FavoritesOf(f, u) then Ok else NotFound)
    ensures r.outcome == NotFound ==> r.after == f
    ensures r.outcome == Ok ==> FavoritesOf(r.after, u) == RemoveFirst(FavoritesOf(f, u), asset)
    ensures r.outcome == Ok ==> (u in r.after <==> |FavoritesOf(f, u)| > 1)
    ensures r.after - {u} == f - {u}
  {
    if u !in f || asset !in f[u] then Step(f, NotFound)
    else
      var rest := RemoveFirst(f[u], asset);
      assert |rest| == |f[u]| - 1;
      if rest == [] then Step(f - {u}, Ok) else Step(f[u := rest], Ok)
  }

  /** `/unfav` keeps the table well formed, and afterwards the asset is no
      longer among the user's favorites. */
  lemma RemoveFavoriteWellFormed(f: FavoriteTable, u: UserId, asset: AssetId)
    requires WellFormed(f)
    ensures WellFormed(RemoveFavorite(f, u, asset).after)
    ensures asset !in FavoritesOf(RemoveFavorite(f, u, asset).after, u)
  {
    if u in f && asset in f[u] {
      RemoveFirstOfNoDup(f[u], asset);
      var after := RemoveFavorite(f, u, asset).after;
      forall v | v in after ensures after[v] != [] && NoDup(after[v]) {
        if v != u { assert v in f && after[v] == f[v]; }
      }
    }
  }

  /** Removing a favorite just added for the first time restores the table. */
  lemma AddThenRemoveRestores(f: FavoriteTable, u: UserId, asset: AssetId)
    requires WellFormed(f)
    requires asset !in FavoritesOf(f, u)
    ensures RemoveFavorite(AddFavorite(f, u, asset, true).after, u, asset) == Step(f, Ok)
  {
    var favs := FavoritesOf(f, u);
    var added := f[u := favs + [asset]];
    assert AddFavorite(f, u, asset, true).after == added;
    var l := favs + [asset];
    RemoveFirstAfter(favs, asset, []);
    assert favs + [asset] + [] == l && favs + [] == favs;
    assert RemoveFirst(l, asset) == favs;
    assert added[u] == l && asset in l;
    var removed := if favs == [] then added - {u} else added[u := favs];
    assert RemoveFavorite(added, u, asset) == Step(removed, Ok);
    MapsEqualAt(removed, f, u);
  }
}
