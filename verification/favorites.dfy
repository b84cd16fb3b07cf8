/** The favourites list of `FavoritesContext`: add-if-absent, remove by id,
    membership and filtering by type, over a list kept in insertion order and
    persisted under `opendata_favorites`. */
module Favorites {
  import opened Wrappers
  import opened JsonData
  import opened Storage
  import Seqs
  import StoredItems

  /** `Favorite['type']`. */
  datatype FavoriteType = Country | News | Crypto | Sport

  /** A favourite: the item's id and type, the item itself, and when it was added. */
  datatype Favorite = Favorite(id: string, kind: FavoriteType, data: Json, addedAt: string)

  /** `favorites.some(f => f.id === id)`: `isFavorite(id)`, and the guard of
      `addFavorite`. The scan stops at the first match; it answers whether
      any position holds the id. */
  function IsFavorite(favorites: seq<Favorite>, id: string): (b: bool)
    ensures b <==> exists i :: 0 <= i < |favorites| && favorites[i].id == id
    decreases |favorites|
  {
    if |favorites| == 0 then false
    else if favorites[0].id == id then true
    else
      var found := IsFavorite(favorites[1..], id);
      assert found ==> exists i :: 0 <= i < |favorites| && favorites[i].id == id by {
        if found {
          var i :| 0 <= i < |favorites[1..]| && favorites[1..][i].id == id;
          assert favorites[i + 1] == favorites[1..][i];
        }
      }
      assert !found ==> forall i :: 0 <= i < |favorites| ==> favorites[i].id != id by {
        if !found {
          forall i | 0 <= i < |favorites|
            ensures favorites[i].id != id
          {
            if i > 0 {
              assert favorites[1..][i - 1] == favorites[i];
            }
          }
        }
      }
      found
  }

  /** No id occurs twice. */
  predicate UniqueIds(favorites: seq<Favorite>) {
    forall i, j :: 0 <= i < j < |favorites| ==> favorites[i].id != favorites[j].id
  }

  function OtherThan(id: string): Favorite -> bool {
    (f: Favorite) => f.id != id
  }

  function OfType(t: FavoriteType): Favorite -> bool {
    (f: Favorite) => f.kind == t
  }

  /** Filtering keeps ids unique. */
  lemma {:induction false} FilterKeepsUniqueIds(favorites: seq<Favorite>, p: Favorite -> bool)
    ensures UniqueIds(favorites) ==> UniqueIds(Seqs.Filter(favorites, p))
    decreases |favorites|
  {
    if |favorites| > 0 && UniqueIds(favorites) {
      var init := favorites[..|favorites| - 1];
      var last := favorites[|favorites| - 1];
      assert UniqueIds(init) by {
        forall i, j | 0 <= i < j < |init|
          ensures init[i].id != init[j].id
        {
          assert init[i] == favorites[i] && init[j] == favorites[j];
        }
      }
      FilterKeepsUniqueIds(init, p);
      var rest := Seqs.Filter(init, p);
      if p(last) {
        forall i | 0 <= i < |rest|
          ensures rest[i].id != last.id
        {
          assert rest[i] in init;
          var k :| 0 <= k < |init| && init[k] == rest[i];
          assert favorites[k] == init[k];
        }
        var r := rest + [last];
        forall i, j | 0 <= i < j < |r|
          ensures r[i].id != r[j].id
        {
          if j < |rest| {
            assert r[i] == rest[i] && r[j] == rest[j];
          }
        }
      }
    }
  }

  /** `addFavorite(favorite)` with `addedAt` the current time: a favourite whose
      id is already present leaves the list as it is; otherwise it goes at the end. */
  function AddFavorite(favorites: seq<Favorite>, id: string, kind: FavoriteType, data: Json, addedAt: string)
    : (r: seq<Favorite>)
    ensures IsFavorite(r, id)
    ensures |r| == (if IsFavorite(favorites, id) then |favorites| else |favorites| + 1)
    ensures r[..|favorites|] == favorites
    ensures !IsFavorite(favorites, id) ==> r[|favorites|] == Favorite(id, kind, data, addedAt)
    ensures UniqueIds(favorites) ==> UniqueIds(r)
  {
    if IsFavorite(favorites, id) then favorites
    else
      var r := favorites + [Favorite(id, kind, data, addedAt)];
      assert r[|favorites|].id == id;
      r
  }

  /** `removeFavorite(id)`: every entry with that id goes, the others stay in order. */
  function RemoveFavorite(favorites: seq<Favorite>, id: string): (r: seq<Favorite>)
    ensures !IsFavorite(r, id)
    ensures forall f :: f in r <==> f in favorites && f.id != id
    ensures forall f :: multiset(r)[f] == if f.id != id then multiset(favorites)[f] else 0
    ensures UniqueIds(favorites) ==> UniqueIds(r)
  {
    var r := Seqs.Filter(favorites, OtherThan(id));
    FilterKeepsUniqueIds(favorites, OtherThan(id));
    assert forall i :: 0 <= i < |r| ==> r[i].id != id;
    r
  }

  /** `getFavoritesByType(type)`: the entries of that type, in order. */
  function FavoritesByType(favorites: seq<Favorite>, t: FavoriteType): (r: seq<Favorite>)
    ensures forall f :: f in r <==> f in favorites && f.kind == t
    ensures forall i :: 0 <= i < |r| ==> r[i].kind == t
    ensures forall f :: multiset(r)[f] == if f.kind == t then multiset(favorites)[f] else 0
  {
    Seqs.Filter(favorites, OfType(t))
  }

  // ---------------------------------------------------------------- properties

  /** Adding makes exactly one more id a favourite. */
  lemma MembershipAfterAdd(favorites: seq<Favorite>, id: string, kind: FavoriteType, data: Json,
                           addedAt: string, other: string)
    ensures IsFavorite(AddFavorite(favorites, id, kind, data, addedAt), other) <==> other == id || IsFavorite(favorites, other)
  {
    var added := AddFavorite(favorites, id, kind, data, addedAt);
    if IsFavorite(added, other) && other != id {
      var i :| 0 <= i < |added| && added[i].id == other;
      assert i < |favorites| && favorites[i] == added[i];
    }
    if IsFavorite(favorites, other) {
      var i :| 0 <= i < |favorites| && favorites[i].id == other;
      assert added[i] == favorites[i];
    }
  }

  /** Removing makes exactly one fewer id a favourite. */
  lemma MembershipAfterRemove(favorites: seq<Favorite>, id: string, other: string)
    ensures IsFavorite(RemoveFavorite(favorites, id), other) <==> other != id && IsFavorite(favorites, other)
  {
    var removed := RemoveFavorite(favorites, id);
    if IsFavorite(favorites, other) && other != id {
      var i :| 0 <= i < |favorites| && favorites[i].id == other;
      assert favorites[i] in removed;
    }
    if IsFavorite(removed, other) {
      var i :| 0 <= i < |removed| && removed[i].id == other;
      assert removed[i] in favorites;
    }
  }

  /** Removing from a concatenation removes from each part. */
  lemma RemoveDistributes(xs: seq<Favorite>, ys: seq<Favorite>, id: string)
    ensures RemoveFavorite(xs + ys, id) == RemoveFavorite(xs, id) + RemoveFavorite(ys, id)
  {
    Seqs.FilterAppend(xs, ys, OtherThan(id));
  }

  /** Filtering a concatenation by type filters each part. */
  lemma ByTypeDistributes(xs: seq<Favorite>, ys: seq<Favorite>, t: FavoriteType)
    ensures FavoritesByType(xs + ys, t) == FavoritesByType(xs, t) + FavoritesByType(ys, t)
  {
    Seqs.FilterAppend(xs, ys, OfType(t));
  }

  /** Removing twice is removing once. */
  lemma RemoveIdempotent(favorites: seq<Favorite>, id: string)
    ensures RemoveFavorite(RemoveFavorite(favorites, id), id) == RemoveFavorite(favorites, id)
  {
    Seqs.FilterIdempotent(favorites, OtherThan(id));
  }

  /** Removing an id that is not there changes nothing. */
  lemma RemoveAbsent(favorites: seq<Favorite>, id: string)
    requires !IsFavorite(favorites, id)
    ensures RemoveFavorite(favorites, id) == favorites
  {
    Seqs.FilterAllKept(favorites, OtherThan(id));
  }

  /** Adding a new id and removing it again restores the list. */
  lemma RemoveUndoesAdd(favorites: seq<Favorite>, id: string, kind: FavoriteType, data: Json, addedAt: string)
    requires !IsFavorite(favorites, id)
    ensures RemoveFavorite(AddFavorite(favorites, id, kind, data, addedAt), id) == favorites
  {
    var entry := Favorite(id, kind, data, addedAt);
    assert AddFavorite(favorites, id, kind, data, addedAt) == favorites + [entry];
    FilterDropsAppended(favorites, entry);
  }

  /** Filtering out the id of an entry appended to a list without it gives the list back. */
  lemma FilterDropsAppended(favorites: seq<Favorite>, entry: Favorite)
    requires !IsFavorite(favorites, entry.id)
    ensures Seqs.Filter(favorites + [entry], OtherThan(entry.id)) == favorites
  {
    Seqs.FilterAppend(favorites, [entry], OtherThan(entry.id));
    RemoveAbsent(favorites, entry.id);
    Seqs.FilterAllDropped([entry], OtherThan(entry.id));
    assert favorites + [] == favorites;
  }

  /** Removing and adding again moves a favourite to the end, with its new details. */
  lemma ReAddMovesToEnd(favorites: seq<Favorite>, id: string, kind: FavoriteType, data: Json, addedAt: string)
    ensures AddFavorite(RemoveFavorite(favorites, id), id, kind, data, addedAt)
            == RemoveFavorite(favorites, id) + [Favorite(id, kind, data, addedAt)]
  {
  }

  /** Filtering by type sees an added favourite at the end of its own type's list only. */
  lemma ByTypeAfterAdd(favorites: seq<Favorite>, id: string, kind: FavoriteType, data: Json, addedAt: string,
                       t: FavoriteType)
    requires !IsFavorite(favorites, id)
    ensures FavoritesByType(AddFavorite(favorites, id, kind, data, addedAt), t)
            == FavoritesByType(favorites, t) + (if kind == t then [Favorite(id, kind, data, addedAt)] else [])
  {
    var entry := Favorite(id, kind, data, addedAt);
    assert AddFavorite(favorites, id, kind, data, addedAt) == favorites + [entry];
    Seqs.FilterSnoc(favorites, entry, OfType(t));
  }

  /** Every favourite is in exactly one type's list. */
  lemma {:induction false} TypesPartition(favorites: seq<Favorite>)
    ensures |FavoritesByType(favorites, Country)| + |FavoritesByType(favorites, News)|
            + |FavoritesByType(favorites, Crypto)| + |FavoritesByType(favorites, Sport)| == |favorites|
    decreases |favorites|
  {
    if |favorites| > 0 {
      TypesPartition(favorites[..|favorites| - 1]);
    }
  }

  // ---------------------------------------------------------------- persistence

  /** The list the provider starts from: the stored list, or an empty one. */
  function LoadFavorites(store: Store, parse: string -> Option<seq<Favorite>>): seq<Favorite> {
    StoredItems.GetStorageItem(store, StoredItems.FavoritesKey, [], parse)
  }

  /** The effect that stores the list after every change. */
  function SaveFavorites(store: Store, favorites: seq<Favorite>, serialize: seq<Favorite> -> string,
                         status: WriteStatus): Store {
    StoredItems.SetStorageItem(store, StoredItems.FavoritesKey, favorites, serialize, status)
  }

  /** A saved list is the one a reload starts from, when the write is accepted
      and the encoding reads back. */
  lemma ReloadRestoresFavorites(store: Store, favorites: seq<Favorite>, serialize: seq<Favorite> -> string,
                                parse: string -> Option<seq<Favorite>>)
    requires serialize(favorites) != "" && parse(serialize(favorites)) == Some(favorites)
    ensures LoadFavorites(SaveFavorites(store, favorites, serialize, Accepted), parse) == favorites
  {
    StoredItems.StoredItemRoundTrip(store, StoredItems.FavoritesKey, favorites, [], serialize, parse, Accepted);
  }
}
