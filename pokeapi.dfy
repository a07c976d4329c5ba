/**
 * The client of the public Pokémon API: one GET per id, and the
 * normalisation of the JSON it answers into the bundle the store is filled
 * from (name, sprite, size, the type names and four base stats).
 */
module PokeApi {
  import opened Wrappers
  import opened Text
  import opened Tables

  /** One entry of the payload's `stats` array: `stat.name` and `base_stat`. */
  datatype StatEntry = StatEntry(statName: string, baseStat: int)

  /** One entry of the payload's `types` array; only `type.name` is read. */
  datatype TypeEntry = TypeEntry(typeName: string)

  /**
   * The two image URLs read from `sprites`: `other['official-artwork'].front_default`
   * and `front_default`; `None` where the field is missing or null.
   */
  datatype Sprites = Sprites(officialArtwork: Option<string>, frontDefault: Option<string>)

  /** The parts of an upstream JSON payload that the client reads. */
  datatype Payload = Payload(
    id: int, name: string, height: int, weight: int,
    types: seq<TypeEntry>, stats: seq<StatEntry>, sprites: Sprites)

  /** The normalised record `getPokemonFromAPI` resolves to. */
  datatype Bundle = Bundle(
    id: int, name: string, sprite: string, height: int, weight: int,
    types: seq<string>, stats: Stats)

  /** `i` is the first index whose stat carries `name`. */
  predicate FirstNamed(entries: seq<StatEntry>, name: string, i: int) {
    && 0 <= i < |entries|
    && entries[i].statName == name
    && forall j :: 0 <= j < i ==> entries[j].statName != name
  }

  /** `stats.find(s => s.stat.name === name)`, as an index. */
  function FindStat(entries: seq<StatEntry>, name: string): (r: Option<nat>)
    ensures r.None? <==> forall i :: 0 <= i < |entries| ==> entries[i].statName != name
    ensures r.Some? ==> FirstNamed(entries, name, r.value)
    decreases |entries|
  {
    if entries == [] then None
    else if entries[0].statName == name then Some(0)
    else match FindStat(entries[1..], name)
      case None => None
      case Some(i) => Some(i + 1)
  }

  /** `stats.find(...)?.base_stat ?? 0`. */
  function BaseStat(entries: seq<StatEntry>, name: string): (v: int)
    ensures IsBaseStat(entries, name, v)
  {
    match FindStat(entries, name)
    case Some(i) => entries[i].baseStat
    case None => 0
  }

  /** `v` is the base stat of the first entry named `name`, or 0 when no entry is. */
  ghost predicate IsBaseStat(entries: seq<StatEntry>, name: string, v: int) {
    || (exists i :: FirstNamed(entries, name, i) && entries[i].baseStat == v)
    || (v == 0 && forall i :: 0 <= i < |entries| ==> entries[i].statName != name)
  }

  /** `artwork || front_default || ''`: the first URL that is present and non-empty. */
  function ChooseSprite(s: Sprites): (r: string)
    ensures Truthy(s.officialArtwork) ==> r == s.officialArtwork.value
    ensures !Truthy(s.officialArtwork) && Truthy(s.frontDefault) ==> r == s.frontDefault.value
    ensures !Truthy(s.officialArtwork) && !Truthy(s.frontDefault) ==> r == ""
  {
    if Truthy(s.officialArtwork) then s.officialArtwork.value
    else if Truthy(s.frontDefault) then s.frontDefault.value
    else ""
  }

  /** The record built from an ok response's payload. */
  function Normalise(d: Payload): (b: Bundle)
    ensures b.id == d.id && b.name == d.name && b.height == d.height && b.weight == d.weight
    ensures |b.types| == |d.types|
    ensures forall i :: 0 <= i < |d.types| ==> b.types[i] == d.types[i].typeName
    ensures b.sprite == ChooseSprite(d.sprites)
    ensures IsBaseStat(d.stats, "hp", b.stats.hp)
    ensures IsBaseStat(d.stats, "attack", b.stats.attack)
    ensures IsBaseStat(d.stats, "defense", b.stats.defense)
    ensures IsBaseStat(d.stats, "speed", b.stats.speed)
  {
    var tys := seq(|d.types|, i requires 0 <= i < |d.types| => d.types[i].typeName);
    var stats := Stats(
      BaseStat(d.stats, "hp"), BaseStat(d.stats, "attack"),
      BaseStat(d.stats, "defense"), BaseStat(d.stats, "speed"));
    Bundle(d.id, d.name, ChooseSprite(d.sprites), d.height, d.weight, tys, stats)
  }

  /** `getPokemonFromAPI`'s result: null for a non-ok response, else the normalised record. */
  function FromResponse(resp: Option<Payload>): (b: Option<Bundle>)
    ensures b.None? <==> resp.None?
    ensures b.Some? ==> b.value == Normalise(resp.value)
  {
    match resp
    case None => None
    case Some(d) => Some(Normalise(d))
  }

  /** The `pokemon` row a bundle fills. */
  function RowOf(b: Bundle): Pokemon {
    Pokemon(b.name, b.sprite, b.height, b.weight)
  }

  lemma BaseStatTail(entries: seq<StatEntry>, name: string)
    requires entries != [] && entries[0].statName != name
    ensures BaseStat(entries, name) == BaseStat(entries[1..], name)
  {
    if i :| FindStat(entries[1..], name) == Some(i) {
      assert entries[1..][i] == entries[i + 1];
    }
  }

  /** A stat entry under another name, wherever it sits, leaves the base stat for `name` alone. */
  lemma {:induction false} BaseStatIgnores(entries: seq<StatEntry>, k: nat, e: StatEntry, name: string)
    requires k <= |entries| && e.statName != name
    ensures BaseStat(entries[..k] + [e] + entries[k..], name) == BaseStat(entries, name)
    decreases k
  {
    var ins := entries[..k] + [e] + entries[k..];
    if k == 0 {
      assert ins[1..] == entries;
      BaseStatTail(ins, name);
    } else {
      assert ins[0] == entries[0];
      assert ins[1..] == entries[1..][..k - 1] + [e] + entries[1..][k - 1..];
      BaseStatIgnores(entries[1..], k - 1, e, name);
      if entries[0].statName != name {
        BaseStatTail(ins, name);
        BaseStatTail(entries, name);
      }
    }
  }

  /** Stats other than hp, attack, defense and speed have no effect on the record. */
  lemma OtherStatsIgnored(d: Payload, k: nat, e: StatEntry)
    requires k <= |d.stats|
    requires e.statName != "hp" && e.statName != "attack" && e.statName != "defense" && e.statName != "speed"
    ensures Normalise(d.(stats := d.stats[..k] + [e] + d.stats[k..])) == Normalise(d)
  {
    BaseStatIgnores(d.stats, k, e, "hp");
    BaseStatIgnores(d.stats, k, e, "attack");
    BaseStatIgnores(d.stats, k, e, "defense");
    BaseStatIgnores(d.stats, k, e, "speed");
  }

  /**
   * The upstream service as an oracle: the payload it answers for each id it
   * knows; any other id gets a non-ok response. `fetches` counts the calls.
   */
  class Upstream {
    const responses: map<int, Payload>
    ghost var fetches: nat

    constructor (responses: map<int, Payload>)
      ensures this.responses == responses && fetches == 0
    {
      this.responses := responses;
      fetches := 0;
    }

    function Lookup(id: int): (r: Option<Payload>)
      ensures r.Some? <==> id in responses
    {
      if id in responses then Some(responses[id]) else None
    }

    /** `fetch(BASE + id)`, with `None` for a response that is not ok. */
    method Fetch(id: int) returns (r: Option<Payload>)
      modifies this`fetches
      ensures r == Lookup(id) && fetches == old(fetches) + 1
    {
      fetches := fetches + 1;
      r := Lookup(id);
    }
  }

  /** One request to the upstream, normalised. */
  method GetPokemonFromAPI(api: Upstream, id: int) returns (b: Option<Bundle>)
    modifies api`fetches
    ensures api.fetches == old(api.fetches) + 1
    ensures b == FromResponse(api.Lookup(id))
  {
    var resp := api.Fetch(id);
    if resp.None? {
      return None;
    }
    b := Some(Normalise(resp.value));
  }
}
