/**
 * The relational store of the server: the five tables, as one value for the
 * read-only queries, and as a `Store` object whose methods are the SQL
 * statements that the cache, the favorites routes and the seeder run.
 */
module Tables {
  import opened Wrappers
  import opened Seqs

  /** A row of `pokemon`, keyed by its id. */
  datatype Pokemon = Pokemon(name: string, sprite: string, height: int, weight: int)

  /** A row of `pokemon_stats`, keyed by `pokemon_id`. */
  datatype Stats = Stats(hp: int, attack: int, defense: int, speed: int)

  /** A row of `pokemon_types`; an id may have several, kept in insertion order. */
  datatype TypeRow = TypeRow(pokemonId: int, typeName: string)

  /** The whole store: `pokemon`, `pokemon_stats`, `pokemon_types`, `favorites`, `facts`. */
  datatype Tables = Tables(
    pokemon: map<int, Pokemon>,
    stats: map<int, Stats>,
    types: seq<TypeRow>,
    favorites: set<int>,
    facts: seq<string>)

  /** A statement the database rejects: a plain INSERT whose primary key is taken. */
  datatype DbError = DuplicateKey(table: string, key: int)

  /** `pokemon_stats`, `pokemon_types` and `favorites` refer to existing `pokemon` rows. */
  predicate ForeignKeys(t: Tables) {
    && t.stats.Keys <= t.pokemon.Keys
    && t.favorites <= t.pokemon.Keys
    && forall row :: row in t.types ==> row.pokemonId in t.pokemon
  }

  function NameOf(t: Tables, id: int): string {
    if id in t.pokemon then t.pokemon[id].name else ""
  }

  function SpriteOf(t: Tables, id: int): string {
    if id in t.pokemon then t.pokemon[id].sprite else ""
  }

  function AttackOf(t: Tables, id: int): int {
    if id in t.stats then t.stats[id].attack else 0
  }

  // ---------------------------------------------------------------- type rows

  /** `SELECT type FROM pokemon_types WHERE pokemon_id = id`, in stored order. */
  function TypesOf(types: seq<TypeRow>, id: int): (r: seq<string>)
    ensures forall ty :: ty in r <==> TypeRow(id, ty) in types
    decreases |types|
  {
    if types == [] then []
    else
      assert types == [types[0]] + types[1..];
      (if types[0].pokemonId == id then [types[0].typeName] else []) + TypesOf(types[1..], id)
  }

  /** `DELETE FROM pokemon_types WHERE pokemon_id = id` leaves these rows. */
  function WithoutTypesOf(types: seq<TypeRow>, id: int): (r: seq<TypeRow>)
    ensures forall row :: row in r <==> row in types && row.pokemonId != id
  {
    Filter(types, (row: TypeRow) => row.pokemonId != id)
  }

  /** `types.map(t => [id, t])`: the rows one bulk `INSERT INTO pokemon_types` adds. */
  function TypeRowsFor(id: int, tys: seq<string>): (r: seq<TypeRow>)
    ensures |r| == |tys|
    ensures forall i :: 0 <= i < |r| ==> r[i] == TypeRow(id, tys[i])
  {
    seq(|tys|, i requires 0 <= i < |tys| => TypeRow(id, tys[i]))
  }

  lemma {:induction false} TypesOfAppend(a: seq<TypeRow>, b: seq<TypeRow>, id: int)
    ensures TypesOf(a + b, id) == TypesOf(a, id) + TypesOf(b, id)
    decreases |a|
  {
    if a != [] {
      assert (a + b)[0] == a[0] && (a + b)[1..] == a[1..] + b;
      TypesOfAppend(a[1..], b, id);
    } else {
      assert a + b == b;
    }
  }

  /** After deleting the rows of `k`, `k` has no types and every other id keeps its own. */
  lemma {:induction false} TypesOfWithout(types: seq<TypeRow>, k: int, id: int)
    ensures TypesOf(WithoutTypesOf(types, k), id) == if id == k then [] else TypesOf(types, id)
    decreases |types|
  {
    if types != [] {
      var p := (row: TypeRow) => row.pokemonId != k;
      var head := if p(types[0]) then [types[0]] else [];
      assert WithoutTypesOf(types, k) == head + WithoutTypesOf(types[1..], k);
      TypesOfAppend(head, WithoutTypesOf(types[1..], k), id);
      TypesOfWithout(types[1..], k, id);
      if head != [] {
        assert head[1..] == [];
      }
    }
  }

  /** The rows one bulk insert adds give exactly the inserted types to their id and none to any other. */
  lemma {:induction false} TypesOfRowsFor(k: int, tys: seq<string>, id: int)
    ensures TypesOf(TypeRowsFor(k, tys), id) == if id == k then tys else []
    decreases |tys|
  {
    if tys != [] {
      var rows := TypeRowsFor(k, tys);
      assert rows[0] == TypeRow(k, tys[0]);
      assert rows[1..] == TypeRowsFor(k, tys[1..]);
      TypesOfRowsFor(k, tys[1..], id);
      assert tys == [tys[0]] + tys[1..];
    }
  }

  /** An id without rows has no types. */
  lemma {:induction false} TypesOfAbsent(types: seq<TypeRow>, id: int)
    requires forall row :: row in types ==> row.pokemonId != id
    ensures TypesOf(types, id) == []
    decreases |types|
  {
    if types != [] {
      assert types[0] in types;
      assert forall row :: row in types[1..] ==> row in types;
      TypesOfAbsent(types[1..], id);
    }
  }

  /** Appending the rows of one bulk insert adds the inserted types after the old ones of that id. */
  lemma AppendRowsTypes(types: seq<TypeRow>, id: int, tys: seq<string>)
    ensures forall k :: TypesOf(types + TypeRowsFor(id, tys), k)
                        == TypesOf(types, k) + (if k == id then tys else [])
  {
    forall k
      ensures TypesOf(types + TypeRowsFor(id, tys), k) == TypesOf(types, k) + (if k == id then tys else [])
    {
      TypesOfAppend(types, TypeRowsFor(id, tys), k);
      TypesOfRowsFor(id, tys, k);
    }
  }

  // ---------------------------------------------------------------- one id's rows

  /** Everything the store holds about one id. */
  datatype KeyView = KeyView(pokemon: Option<Pokemon>, stats: Option<Stats>, types: seq<string>)

  function At(t: Tables, id: int): KeyView {
    KeyView(
      if id in t.pokemon then Some(t.pokemon[id]) else None,
      if id in t.stats then Some(t.stats[id]) else None,
      TypesOf(t.types, id))
  }

  // ---------------------------------------------------------------- the store object

  /** The database the routes share; every method is one SQL statement. */
  class Store {
    var pokemon: map<int, Pokemon>
    var stats: map<int, Stats>
    var types: seq<TypeRow>
    var favorites: set<int>
    var facts: seq<string>

    function View(): Tables
      reads this
    {
      Tables(pokemon, stats, types, favorites, facts)
    }

    constructor (t: Tables)
      ensures View() == t
    {
      pokemon, stats, types, favorites, facts := t.pokemon, t.stats, t.types, t.favorites, t.facts;
    }

    /** `INSERT INTO pokemon (id, name, sprite, height, weight) VALUES (...)`. */
    method InsertPokemon(id: int, row: Pokemon) returns (r: Result<(), DbError>)
      modifies this
      ensures id in old(pokemon) ==> r == Err(DuplicateKey("pokemon", id)) && View() == old(View())
      ensures id !in old(pokemon) ==> r == Ok(()) && View() == old(View()).(pokemon := old(pokemon)[id := row])
    {
      if id in pokemon {
        r := Err(DuplicateKey("pokemon", id));
      } else {
        pokemon := pokemon[id := row];
        r := Ok(());
      }
    }

    /** `INSERT INTO pokemon ... ON DUPLICATE KEY UPDATE` of every non-key column. */
    method UpsertPokemon(id: int, row: Pokemon)
      modifies this
      ensures View() == old(View()).(pokemon := old(pokemon)[id := row])
    {
      pokemon := pokemon[id := row];
    }

    /** `INSERT INTO pokemon_stats (pokemon_id, hp, attack, defense, speed) VALUES (...)`. */
    method InsertStats(id: int, row: Stats) returns (r: Result<(), DbError>)
      modifies this
      ensures id in old(stats) ==> r == Err(DuplicateKey("pokemon_stats", id)) && View() == old(View())
      ensures id !in old(stats) ==> r == Ok(()) && View() == old(View()).(stats := old(stats)[id := row])
    {
      if id in stats {
        r := Err(DuplicateKey("pokemon_stats", id));
      } else {
        stats := stats[id := row];
        r := Ok(());
      }
    }

    /** `INSERT INTO pokemon_stats ... ON DUPLICATE KEY UPDATE` of every stat. */
    method UpsertStats(id: int, row: Stats)
      modifies this
      ensures View() == old(View()).(stats := old(stats)[id := row])
    {
      stats := stats[id := row];
    }

    /** `INSERT INTO pokemon_types (pokemon_id, type) VALUES ?` with a batch of rows. */
    method InsertTypeRows(rows: seq<TypeRow>)
      modifies this
      ensures View() == old(View()).(types := old(types) + rows)
    {
      types := types + rows;
    }

    /** `DELETE FROM pokemon_types WHERE pokemon_id = ?`. */
    method DeleteTypesOf(id: int)
      modifies this
      ensures View() == old(View()).(types := WithoutTypesOf(old(types), id))
    {
      types := WithoutTypesOf(types, id);
    }

    /**
     * `INSERT IGNORE INTO favorites (pokemon_id) VALUES (?)`: a key already
     * present, and an id without a `pokemon` row (the foreign key fails), are
     * both ignored.
     */
    method InsertIgnoreFavorite(id: int)
      modifies this
      ensures View() == old(View()).(favorites := if id in old(pokemon) then old(favorites) + {id} else old(favorites))
    {
      if id in pokemon {
        favorites := favorites + {id};
      }
    }

    /** `DELETE FROM favorites WHERE pokemon_id = ?`. */
    method DeleteFavorite(id: int)
      modifies this
      ensures View() == old(View()).(favorites := old(favorites) - {id})
    {
      favorites := favorites - {id};
    }

    /** `DELETE FROM facts`. */
    method DeleteAllFacts()
      modifies this
      ensures View() == old(View()).(facts := [])
    {
      facts := [];
    }

    /** `INSERT INTO facts (text) VALUES ?` with a batch of rows. */
    method InsertFacts(rows: seq<string>)
      modifies this
      ensures View() == old(View()).(facts := old(facts) + rows)
    {
      facts := facts + rows;
    }
  }
}
