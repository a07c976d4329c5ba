/**
 * The `/api/profile/stats` route: how many favorites and how many stored
 * Pokémon there are, and the type that occurs most often among the
 * favorites' type rows.
 */
module Profile {
  import opened Wrappers
  import opened Seqs
  import opened Tables

  datatype ProfileStats = ProfileStats(favorites: nat, seen: nat, topType: Option<string>)

  /** The `pt.type` column of `favorites f JOIN pokemon_types pt ON pt.pokemon_id = f.pokemon_id`. */
  function FavoriteTypes(t: Tables): (r: seq<string>)
    ensures forall ty :: ty in r <==> exists row :: row in t.types && row.pokemonId in t.favorites && row.typeName == ty
  {
    TypeNames(Filter(t.types, (row: TypeRow) => row.pokemonId in t.favorites))
  }

  /** The `type` column of some type rows, one entry per row. */
  function TypeNames(rows: seq<TypeRow>): (r: seq<string>)
    ensures |r| == |rows|
    ensures forall i :: 0 <= i < |rows| ==> r[i] == rows[i].typeName
    ensures forall ty :: ty in r <==> exists row :: row in rows && row.typeName == ty
    decreases |rows|
  {
    if rows == [] then []
    else
      assert forall row :: row in rows ==> row == rows[0] || row in rows[1..];
      [rows[0].typeName] + TypeNames(rows[1..])
  }

  /** `COUNT(*)` of one group of `GROUP BY pt.type`. */
  function Count(s: seq<string>, ty: string): nat {
    multiset(s)[ty]
  }

  /** A candidate with the greatest count; among equal counts the earliest candidate is kept. */
  function MostFrequentOf(s: seq<string>, cands: seq<string>): (r: string)
    requires cands != []
    ensures r in cands
    ensures forall x :: x in cands ==> Count(s, x) <= Count(s, r)
    decreases |cands|
  {
    if |cands| == 1 then cands[0]
    else
      var best := MostFrequentOf(s, cands[1..]);
      assert forall x :: x in cands ==> x == cands[0] || x in cands[1..];
      if Count(s, cands[0]) >= Count(s, best) then cands[0] else best
  }

  /**
   * `ORDER BY cnt DESC LIMIT 1` then `rows[0]?.type || null`: no type when
   * no favorite has a type row, and none either when the winning type is the
   * empty string.
   */
  function TopType(t: Tables): (r: Option<string>)
    ensures r.Some? ==> r.value != "" && r.value in FavoriteTypes(t)
    ensures FavoriteTypes(t) == [] ==> r.None?
  {
    var s := FavoriteTypes(t);
    if s == [] then None
    else
      var w := MostFrequentOf(s, s);
      if w == "" then None else Some(w)
  }

  /** Each type is counted once per joined row that carries it: a favorite's type row naming it. */
  lemma FavoriteTypeCount(t: Tables, ty: string)
    ensures Count(FavoriteTypes(t), ty) ==
      |Filter(t.types, (row: TypeRow) => row.pokemonId in t.favorites && row.typeName == ty)|
  {
    var fav := (row: TypeRow) => row.pokemonId in t.favorites;
    var named := (row: TypeRow) => row.typeName == ty;
    var both := (row: TypeRow) => row.pokemonId in t.favorites && row.typeName == ty;
    NamesCount(Filter(t.types, fav), ty);
    FilterFilter(t.types, fav, named, both);
  }

  /** A type occurs among the names as often as rows carry it. */
  lemma {:induction false} NamesCount(rows: seq<TypeRow>, ty: string)
    ensures multiset(TypeNames(rows))[ty] == |Filter(rows, (row: TypeRow) => row.typeName == ty)|
    decreases |rows|
  {
    if rows != [] {
      NamesCount(rows[1..], ty);
      assert TypeNames(rows) == [rows[0].typeName] + TypeNames(rows[1..]);
    }
  }

  /**
   * The top type is a type some favorite has, occurring at least as often
   * as any other; there is one whenever some favorite has a type row and
   * every such row names a non-empty type.
   */
  lemma TopTypeIsMostFrequent(t: Tables)
    ensures TopType(t).Some? ==>
      var w := TopType(t).value;
      && w != ""
      && (exists row :: row in t.types && row.pokemonId in t.favorites && row.typeName == w)
      && forall x :: Count(FavoriteTypes(t), x) <= Count(FavoriteTypes(t), w)
    ensures (forall row :: row in t.types && row.pokemonId in t.favorites ==> row.typeName != "") ==>
      (TopType(t).Some? <==> exists row :: row in t.types && row.pokemonId in t.favorites)
  {
    var s := FavoriteTypes(t);
    if s != [] {
      var w := MostFrequentOf(s, s);
      forall x
        ensures Count(s, x) <= Count(s, w)
      {
        if x !in s {
          assert multiset(s)[x] == 0;
        }
      }
      assert s[0] in s;
    }
  }

  /** `GET /stats`: the three counts the profile page shows. */
  method GetProfileStats(db: Store) returns (r: ProfileStats)
    ensures r.favorites == |db.favorites| && r.seen == |db.pokemon.Keys|
    ensures r.topType == TopType(db.View())
  {
    var favs := |db.favorites|;
    var seen := |db.pokemon.Keys|;
    r := ProfileStats(favs, seen, TopType(db.View()));
  }
}
