/**
 * The `/api/favorites` routes: mark a Pokémon as a favorite, unmark it, and
 * list the favorites by name.
 */
module Favorites {
  import opened Wrappers
  import opened Text
  import opened Seqs
  import opened Tables
  import opened Http
  import opened PokemonRoutes

  /** One entry of `GET /`: `p.id, p.name, p.sprite`. */
  datatype FavoriteRow = FavoriteRow(id: int, name: string, sprite: string)

  /**
   * `POST /:id`: 400 when the id parses to NaN or 0; otherwise the id is
   * added with INSERT IGNORE, which leaves the ledger as it is when the id
   * is already there or has no `pokemon` row, and the answer is `{ ok: true }`.
   */
  method MarkFavorite(db: Store, rawId: string) returns (r: Response<()>)
    modifies db
    ensures var id := ParseInt(rawId);
      id.None? || id.value == 0 ==> r == BadRequest && db.View() == old(db.View())
    ensures var id := ParseInt(rawId);
      id.Some? && id.value != 0 ==>
        && r == Json(())
        && db.View() == old(db.View()).(favorites :=
             if id.value in old(db.pokemon) then old(db.favorites) + {id.value} else old(db.favorites))
  {
    var id := ParseInt(rawId);
    if id.None? || id.value == 0 {
      return BadRequest;
    }
    db.InsertIgnoreFavorite(id.value);
    r := Json(());
  }

  /**
   * `DELETE /:id`: the id is removed from the ledger (an absent one is no
   * error). An id that parses to NaN is bound as `NaN`, which the database
   * rejects, and the handler answers 500 with the ledger unchanged.
   */
  method UnmarkFavorite(db: Store, rawId: string) returns (r: Response<()>)
    modifies db
    ensures ParseInt(rawId).None? ==> r == ServerError && db.View() == old(db.View())
    ensures ParseInt(rawId).Some? ==>
      r == Json(()) && db.View() == old(db.View()).(favorites := old(db.favorites) - {ParseInt(rawId).value})
  {
    var id := ParseInt(rawId);
    if id.None? {
      return ServerError;
    }
    db.DeleteFavorite(id.value);
    r := Json(());
  }

  /**
   * Marking an id that is not a favorite yet and then unmarking it leaves
   * the store as it was, whether or not the id has a `pokemon` row.
   */
  method MarkThenUnmark(db: Store, rawId: string)
    modifies db
    requires ParseInt(rawId).Some? && ParseInt(rawId).value != 0 && ParseInt(rawId).value !in db.favorites
    ensures db.View() == old(db.View())
  {
    var r1 := MarkFavorite(db, rawId);
    var r2 := UnmarkFavorite(db, rawId);
  }

  /**
   * The ids `favorites f JOIN pokemon p ON p.id = f.pokemon_id ORDER BY p.name ASC`
   * yields: each favorite that has a `pokemon` row, once.
   */
  function FavoriteIds(t: Tables): (r: seq<int>)
    ensures Distinct(r)
    ensures forall id :: id in r <==> id in t.favorites && id in t.pokemon
  {
    var stored := (id: int) => id in t.pokemon;
    var f := Filter(SortedIds(t.favorites), stored);
    var r := SortBy(f, KeyLe(t, NameAsc));
    SortedIdsDistinct(t.favorites);
    FilterDistinct(SortedIds(t.favorites), stored);
    PermutationDistinct(f, r);
    assert forall id :: id in r <==> id in multiset(r);
    assert forall id :: id in f <==> id in multiset(f);
    r
  }

  /**
   * The favorites list holds each favorite that has a `pokemon` row exactly
   * once, in ascending order of name, so it is as long as that set.
   */
  lemma FavoritesListed(t: Tables)
    ensures var r := FavoriteIds(t);
      && (forall i, j :: 0 <= i < j < |r| ==> StrLe(NameOf(t, r[i]), NameOf(t, r[j])))
      && |r| == |t.favorites * t.pokemon.Keys|
  {
    FavoriteIdsByName(t);
    var r := FavoriteIds(t);
    DistinctCard(r);
    var listed := set x | x in r;
    forall x
      ensures x in listed <==> x in t.favorites * t.pokemon.Keys
    {
    }
    assert listed == t.favorites * t.pokemon.Keys;
  }

  lemma FavoriteIdsByName(t: Tables)
    ensures var r := FavoriteIds(t);
      forall i, j :: 0 <= i < j < |r| ==> StrLe(NameOf(t, r[i]), NameOf(t, r[j]))
  {
    var f := Filter(SortedIds(t.favorites), (id: int) => id in t.pokemon);
    var r := FavoriteIds(t);
    KeyLeTotalPreorder(t, NameAsc);
    SortBySorted(f, KeyLe(t, NameAsc));
    forall i, j | 0 <= i < j < |r|
      ensures StrLe(NameOf(t, r[i]), NameOf(t, r[j]))
    {
      assert KeyLe(t, NameAsc)(r[i], r[j]);
    }
  }

  /** `GET /`: the rows of the favorites list. */
  function ListFavorites(t: Tables): (rows: seq<FavoriteRow>)
    ensures |rows| == |FavoriteIds(t)|
    ensures forall i :: 0 <= i < |rows| ==>
      var id := FavoriteIds(t)[i];
      rows[i] == FavoriteRow(id, NameOf(t, id), SpriteOf(t, id))
  {
    var ids := FavoriteIds(t);
    seq(|ids|, i requires 0 <= i < |ids| => FavoriteRow(ids[i], NameOf(t, ids[i]), SpriteOf(t, ids[i])))
  }
}
