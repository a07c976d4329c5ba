/**
 * The read-through cache in front of the upstream API: an id that the store
 * does not know is fetched once and written with three plain INSERTs; the
 * detail record is then read back from the store.
 */
module Cache {
  import opened Wrappers
  import opened Tables
  import opened PokeApi

  /** The store after an `ensurePokemonInDB` call, and what the call resolves to (or the error it throws). */
  datatype Hydration = Hydration(tables: Tables, result: Result<bool, DbError>)

  /**
   * The three writes for a fetched record: the `pokemon` row, the
   * `pokemon_stats` row, then one `pokemon_types` row per type (none when
   * the list is empty). The first write that hits a taken key throws, and
   * the writes before it stay.
   */
  function InsertBundle(t: Tables, b: Bundle): (h: Hydration)
    ensures h.tables.favorites == t.favorites && h.tables.facts == t.facts
    ensures forall k :: k != b.id ==> At(h.tables, k) == At(t, k)
    ensures b.id in t.pokemon ==> h == Hydration(t, Err(DuplicateKey("pokemon", b.id)))
    ensures b.id !in t.pokemon && b.id in t.stats ==>
      && h.result == Err(DuplicateKey("pokemon_stats", b.id))
      && At(h.tables, b.id) == At(t, b.id).(pokemon := Some(RowOf(b)))
    ensures b.id !in t.pokemon && b.id !in t.stats ==>
      && h.result == Ok(true)
      && At(h.tables, b.id) == KeyView(Some(RowOf(b)), Some(b.stats), TypesOf(t.types, b.id) + b.types)
    ensures ForeignKeys(t) ==> ForeignKeys(h.tables)
  {
    if b.id in t.pokemon then Hydration(t, Err(DuplicateKey("pokemon", b.id)))
    else
      var t1 := t.(pokemon := t.pokemon[b.id := RowOf(b)]);
      if b.id in t1.stats then Hydration(t1, Err(DuplicateKey("pokemon_stats", b.id)))
      else
        var t2 := t1.(stats := t1.stats[b.id := b.stats]);
        AppendRowsTypes(t2.types, b.id, b.types);
        assert b.types == [] ==> t2.types + TypeRowsFor(b.id, b.types) == t2.types;
        var t3 := if |b.types| > 0 then t2.(types := t2.types + TypeRowsFor(b.id, b.types)) else t2;
        Hydration(t3, Ok(true))
  }

  /**
   * `ensurePokemonInDB(id)` given the store and the upstream's answer for
   * `id`: true without a fetch when the row exists, false when the upstream
   * has no record, else the result of writing the record it sent.
   */
  function Hydrate(t: Tables, id: int, resp: Option<Payload>): (h: Hydration)
    ensures id in t.pokemon ==> h == Hydration(t, Ok(true))
    ensures id !in t.pokemon && resp.None? ==> h == Hydration(t, Ok(false))
    ensures id !in t.pokemon && resp.Some? ==> h == InsertBundle(t, Normalise(resp.value))
    ensures h.tables.favorites == t.favorites && h.tables.facts == t.facts
    ensures forall k :: (resp.None? || k != resp.value.id) ==> At(h.tables, k) == At(t, k)
    ensures ForeignKeys(t) ==> ForeignKeys(h.tables)
  {
    if id in t.pokemon then Hydration(t, Ok(true))
    else match FromResponse(resp)
      case None => Hydration(t, Ok(false))
      case Some(b) => InsertBundle(t, b)
  }

  /**
   * A second call with the same answer changes nothing: either the first
   * call stored the id, or it stored nothing, or the answer carries another
   * id whose `pokemon` row is now taken, so the second insert fails at once.
   */
  lemma HydrateIdempotent(t: Tables, id: int, resp: Option<Payload>)
    ensures var h := Hydrate(t, id, resp);
      Hydrate(h.tables, id, resp).tables == h.tables
  {
    var h := Hydrate(t, id, resp);
    if id !in t.pokemon && resp.Some? {
      var b := Normalise(resp.value);
      assert b.id in h.tables.pokemon;
    }
  }

  /**
   * An absent id that the upstream answers with another id stays absent,
   * and every later request for it fails on the taken key of the other id.
   */
  lemma ForeignIdFailsLater(t: Tables, id: int, d: Payload)
    requires d.id != id && id !in t.pokemon
    ensures var h := Hydrate(t, id, Some(d));
      id !in h.tables.pokemon && Hydrate(h.tables, id, Some(d)).result == Err(DuplicateKey("pokemon", d.id))
  {
  }

  /**
   * On a store whose foreign keys hold, the insert can only throw when the
   * upstream answers with another id than the one asked for, one the store
   * already has.
   */
  lemma HydrateFailsOnlyOnForeignId(t: Tables, id: int, resp: Option<Payload>)
    requires ForeignKeys(t)
    ensures Hydrate(t, id, resp).result.Err? ==>
      resp.Some? && resp.value.id != id && resp.value.id in t.pokemon
  {
  }

  /** The record `getPokemonDetails` answers; `stats` is `None` where the code sends `{}`. */
  datatype Details = Details(
    id: int, name: string, sprite: string, height: int, weight: int,
    stats: Option<Stats>, types: seq<string>)

  /** The three reads of `getPokemonDetails`: null when `pokemon` has no row for the id. */
  function DetailsOf(t: Tables, id: int): (r: Option<Details>)
    ensures r.None? <==> id !in t.pokemon
    ensures r.Some? ==>
      var v := At(t, id);
      && v.pokemon == Some(Pokemon(r.value.name, r.value.sprite, r.value.height, r.value.weight))
      && r.value.id == id && v.stats == r.value.stats && v.types == r.value.types
  {
    if id !in t.pokemon then None
    else
      var p := t.pokemon[id];
      Some(Details(id, p.name, p.sprite, p.height, p.weight,
        if id in t.stats then Some(t.stats[id]) else None,
        TypesOf(t.types, id)))
  }

  /** The detail record of a freshly written bundle. */
  function DetailsOfBundle(b: Bundle): Details {
    Details(b.id, b.name, b.sprite, b.height, b.weight, Some(b.stats), b.types)
  }

  /**
   * Fetch then read back: on a consistent store, an id it lacks and that the
   * upstream answers with its own id reads back exactly the normalised record.
   */
  lemma {:induction false} FetchedReadsBack(t: Tables, id: int, d: Payload)
    requires ForeignKeys(t) && id !in t.pokemon && d.id == id
    ensures var h := Hydrate(t, id, Some(d));
      h.result == Ok(true) && DetailsOf(h.tables, id) == Some(DetailsOfBundle(Normalise(d)))
  {
    var b := Normalise(d);
    TypesOfAbsent(t.types, id);
    assert TypesOf(t.types, id) + b.types == b.types;
  }

  /**
   * A row that is already stored is answered as stored, without a fetch:
   * the cache never repairs a row that lacks its stats or type rows.
   */
  lemma StoredRowNotRepaired(t: Tables, id: int, resp: Option<Payload>)
    requires id in t.pokemon
    ensures DetailsOf(Hydrate(t, id, resp).tables, id) == DetailsOf(t, id)
  {
  }

  /**
   * An upstream that answers with another id than the one asked for: the
   * write succeeds, yet the id that was asked for still has no row.
   */
  lemma ForeignIdAnswerNotFound(t: Tables, id: int, d: Payload)
    requires ForeignKeys(t) && d.id != id && id !in t.pokemon && d.id !in t.pokemon
    ensures var h := Hydrate(t, id, Some(d));
      h.result == Ok(true) && DetailsOf(h.tables, id).None? && DetailsOf(h.tables, d.id).Some?
  {
  }

  /** `ensurePokemonInDB(id)` against the shared store and the upstream. */
  method EnsurePokemonInDB(db: Store, api: Upstream, id: int) returns (r: Result<bool, DbError>)
    modifies db, api`fetches
    ensures var h := Hydrate(old(db.View()), id, api.Lookup(id));
      db.View() == h.tables && r == h.result
    ensures api.fetches == old(api.fetches) + (if id in old(db.pokemon) then 0 else 1)
  {
    if id in db.pokemon {
      return Ok(true);
    }
    var p := GetPokemonFromAPI(api, id);
    if p.None? {
      return Ok(false);
    }
    var b := p.value;
    var ins := db.InsertPokemon(b.id, RowOf(b));
    if ins.Err? {
      return Err(ins.error);
    }
    ins := db.InsertStats(b.id, b.stats);
    if ins.Err? {
      return Err(ins.error);
    }
    if |b.types| > 0 {
      db.InsertTypeRows(TypeRowsFor(b.id, b.types));
    }
    return Ok(true);
  }

  /**
   * Two requests for the same id in a row: when the upstream answers with
   * that id, the first request writes the row and the second finds it, so
   * the upstream is asked at most once.
   */
  method EnsureTwice(db: Store, api: Upstream, id: int) returns (first: Result<bool, DbError>, second: Result<bool, DbError>)
    modifies db, api`fetches
    requires ForeignKeys(db.View()) && api.Lookup(id).Some? && api.Lookup(id).value.id == id
    ensures first == Ok(true) && second == Ok(true)
    ensures api.fetches == old(api.fetches) + (if id in old(db.pokemon) then 0 else 1)
    ensures db.View() == Hydrate(old(db.View()), id, api.Lookup(id)).tables
  {
    if id !in db.pokemon {
      FetchedReadsBack(db.View(), id, api.Lookup(id).value);
    }
    HydrateIdempotent(db.View(), id, api.Lookup(id));
    first := EnsurePokemonInDB(db, api, id);
    second := EnsurePokemonInDB(db, api, id);
  }

  /**
   * `getPokemonDetails(id)`: make sure the row is cached, then read it back;
   * an error thrown by the cache propagates.
   */
  method GetPokemonDetails(db: Store, api: Upstream, id: int) returns (r: Result<Option<Details>, DbError>)
    modifies db, api`fetches
    ensures var h := Hydrate(old(db.View()), id, api.Lookup(id));
      && db.View() == h.tables
      && (h.result.Err? ==> r == Err(h.result.error))
      && (h.result.Ok? ==> r == Ok(DetailsOf(h.tables, id)))
    ensures api.fetches == old(api.fetches) + (if id in old(db.pokemon) then 0 else 1)
  {
    var e := EnsurePokemonInDB(db, api, id);
    if e.Err? {
      return Err(e.error);
    }
    if id !in db.pokemon {
      return Ok(None);
    }
    var info := db.pokemon[id];
    var stats := if id in db.stats then Some(db.stats[id]) else None;
    var tys := TypesOf(db.types, id);
    r := Ok(Some(Details(id, info.name, info.sprite, info.height, info.weight, stats, tys)));
  }
}
