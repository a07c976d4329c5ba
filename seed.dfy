/**
 * The seeding script: run the schema file statement by statement, replace
 * the facts with a fixed list, then fetch ids 1..151 from the upstream API
 * and upsert each record, replacing its type rows.
 */
module Seed {
  import opened Wrappers
  import opened Text
  import opened Seqs
  import opened Tables
  import opened PokeApi
  import opened Cache

  // ---------------------------------------------------------------- schema

  function TrimAll(pieces: seq<string>): (r: seq<string>)
    ensures |r| == |pieces|
    ensures forall i :: 0 <= i < |r| ==> r[i] == Trim(pieces[i])
  {
    seq(|pieces|, i requires 0 <= i < |pieces| => Trim(pieces[i]))
  }

  predicate NonEmpty(s: string) {
    s != ""
  }

  /**
   * `schema.split(';').map(s => s.trim()).filter(Boolean)`: every statement
   * is a trimmed piece that is not empty, and every such piece is kept.
   */
  function Statements(schema: string): (r: seq<string>)
    ensures forall x :: x in r ==> x != "" && exists piece :: piece in Split(schema, ';') && x == Trim(piece)
    ensures forall piece :: piece in Split(schema, ';') && Trim(piece) != "" ==> Trim(piece) in r
  {
    var pieces := Split(schema, ';');
    KeptPieces(pieces, TrimAll(pieces));
    Filter(TrimAll(pieces), NonEmpty)
  }

  /** The non-empty trimmed pieces are kept, and only they. */
  lemma KeptPieces(pieces: seq<string>, trimmed: seq<string>)
    requires |trimmed| == |pieces|
    requires forall i :: 0 <= i < |trimmed| ==> trimmed[i] == Trim(pieces[i])
    ensures forall x :: x in Filter(trimmed, NonEmpty) ==> x != "" && exists piece :: piece in pieces && x == Trim(piece)
    ensures forall piece :: piece in pieces && Trim(piece) != "" ==> Trim(piece) in Filter(trimmed, NonEmpty)
  {
    forall piece | piece in pieces && Trim(piece) != ""
      ensures Trim(piece) in Filter(trimmed, NonEmpty)
    {
      var i :| 0 <= i < |pieces| && pieces[i] == piece;
      assert trimmed[i] in trimmed && NonEmpty(trimmed[i]);
    }
    forall x | x in Filter(trimmed, NonEmpty)
      ensures x != "" && exists piece :: piece in pieces && x == Trim(piece)
    {
      assert NonEmpty(x);
      var i :| 0 <= i < |trimmed| && trimmed[i] == x;
      assert pieces[i] in pieces;
    }
  }

  /**
   * Pieces free of `;`, written out separated by `;` (with or without a
   * final `;`), are read back as their trimmed forms, the empty ones dropped.
   */
  lemma StatementsRoundTrip(stmts: seq<string>)
    requires |stmts| >= 1
    requires forall i :: 0 <= i < |stmts| ==> ';' !in stmts[i]
    ensures Statements(Join(stmts, ';')) == Filter(TrimAll(stmts), NonEmpty)
    ensures Statements(Join(stmts + [""], ';')) == Filter(TrimAll(stmts), NonEmpty)
  {
    JoinedStatements(stmts);
    JoinedPadded(stmts);
  }

  /**
   * Statements that are not empty and have no white space at either end
   * come back exactly, one by one.
   */
  lemma StatementsReadBack(stmts: seq<string>)
    requires |stmts| >= 1
    requires forall i :: 0 <= i < |stmts| ==>
      stmts[i] != "" && ';' !in stmts[i] && !IsSpace(stmts[i][0]) && !IsSpace(stmts[i][|stmts[i]| - 1])
    ensures Statements(Join(stmts, ';')) == stmts
    ensures Statements(Join(stmts + [""], ';')) == stmts
  {
    StatementsRoundTrip(stmts);
    TrimAllFixed(stmts);
    FilterAll(stmts, NonEmpty);
  }

  lemma JoinedPadded(stmts: seq<string>)
    requires |stmts| >= 1
    requires forall i :: 0 <= i < |stmts| ==> ';' !in stmts[i]
    ensures Statements(Join(stmts + [""], ';')) == Filter(TrimAll(stmts), NonEmpty)
  {
    PaddedPieces(stmts);
    TrimAllPadded(stmts);
    JoinedStatements(stmts + [""]);
    DropEmptyTail(TrimAll(stmts));
  }

  /** A final empty piece holds no `;`. */
  lemma PaddedPieces(stmts: seq<string>)
    requires forall i :: 0 <= i < |stmts| ==> ';' !in stmts[i]
    ensures forall i :: 0 <= i < |stmts + [""]| ==> ';' !in (stmts + [""])[i]
  {
    var padded := stmts + [""];
    forall i | 0 <= i < |padded|
      ensures ';' !in padded[i]
    {
      if i < |stmts| {
        assert padded[i] == stmts[i];
      }
    }
  }

  /** A final empty piece trims to itself. */
  lemma TrimAllPadded(stmts: seq<string>)
    ensures TrimAll(stmts + [""]) == TrimAll(stmts) + [""]
  {
    var padded := stmts + [""];
    var lhs, rhs := TrimAll(padded), TrimAll(stmts) + [""];
    assert |lhs| == |rhs|;
    forall i | 0 <= i < |lhs|
      ensures lhs[i] == rhs[i]
    {
      TrimAllAt(stmts, i);
    }
  }

  lemma TrimAllAt(stmts: seq<string>, i: int)
    requires 0 <= i <= |stmts|
    ensures TrimAll(stmts + [""])[i] == (TrimAll(stmts) + [""])[i]
  {
    if i < |stmts| {
      assert (stmts + [""])[i] == stmts[i];
    } else {
      assert (stmts + [""])[i] == "";
      TrimEmpty();
    }
  }

  lemma TrimEmpty()
    ensures Trim("") == ""
  {
    assert TrimStart("") == "";
    assert TrimEnd("") == "";
  }

  /** A final empty piece is dropped by the filter. */
  lemma DropEmptyTail(stmts: seq<string>)
    ensures Filter(stmts + [""], NonEmpty) == Filter(stmts, NonEmpty)
  {
    FilterAppend(stmts, [""], NonEmpty);
    assert Filter([""], NonEmpty) == [];
    assert Filter(stmts, NonEmpty) + [] == Filter(stmts, NonEmpty);
  }

  /** Statements that are already trimmed are left as they are by trimming. */
  lemma TrimAllFixed(stmts: seq<string>)
    requires forall i :: 0 <= i < |stmts| ==>
      stmts[i] == [] || (!IsSpace(stmts[i][0]) && !IsSpace(stmts[i][|stmts[i]| - 1]))
    ensures TrimAll(stmts) == stmts
  {
    forall i | 0 <= i < |stmts|
      ensures TrimAll(stmts)[i] == stmts[i]
    {
      TrimmedIsFixed(stmts[i]);
    }
  }

  /** Pieces joined with `;`, then split and trimmed, come back trimmed; the empty ones are then dropped. */
  lemma JoinedStatements(pieces: seq<string>)
    requires |pieces| >= 1
    requires forall i :: 0 <= i < |pieces| ==> ';' !in pieces[i]
    ensures Statements(Join(pieces, ';')) == Filter(TrimAll(pieces), NonEmpty)
  {
    SplitJoin(pieces, ';');
  }

  /**
   * `for (const stmt of stmts) await pool.query(stmt)`: the statements the
   * database receives, each once and in order. What a statement does to the
   * database is not modelled, so the order is the whole claim.
   */
  method RunStatements(stmts: seq<string>) returns (issued: seq<string>)
    ensures issued == stmts
  {
    issued := [];
    for i := 0 to |stmts|
      invariant issued == stmts[..i]
    {
      issued := issued + [stmts[i]];
    }
    assert stmts[..|stmts|] == stmts;
  }

  /** The schema step: every statement of the schema file, in order. */
  method ApplySchema(schema: string) returns (issued: seq<string>)
    ensures issued == Statements(schema)
  {
    issued := RunStatements(Statements(schema));
  }

  // ---------------------------------------------------------------- facts

  /** The fact list the script writes. */
  const SeedFacts: seq<string> := [
    "Pikachu ist das bekannteste Pokémon.",
    "Glurak ist der finale Starter von Glumanda.",
    "Ditto kann sich in jedes Pokémon verwandeln.",
    "Mewtu wurde künstlich geschaffen.",
    "Legendäre Vögel: Arktos, Zapdos, Lavados.",
    "Evoli hat viele Entwicklungen.",
    "Relaxo liebt es zu schlafen.",
    "Onix ist ein riesiger Felsenschlangen-Pokémon.",
    "Psyduck bekommt Kopfschmerzen durch seine Kräfte.",
    "Taubsi ist eines der ersten Vogel-Pokémon."
  ]

  /** `DELETE FROM facts` then one bulk insert: the facts become exactly the fixed list. */
  method ReplaceFacts(db: Store)
    modifies db
    ensures db.View() == old(db.View()).(facts := SeedFacts)
  {
    if |SeedFacts| > 0 {
      db.DeleteAllFacts();
      db.InsertFacts(SeedFacts);
    }
  }

  // ---------------------------------------------------------------- the 1..151 loop, as specified

  /**
   * One turn of the loop: nothing when the upstream has no record; else the
   * `pokemon` and `pokemon_stats` rows are upserted and the record's type
   * rows replace the old ones.
   */
  function SeedStep(t: Tables, p: Option<Bundle>): (r: Tables)
    ensures r.favorites == t.favorites && r.facts == t.facts
    ensures r.pokemon.Keys == t.pokemon.Keys + (if p.Some? then {p.value.id} else {})
  {
    match p
    case None => t
    case Some(b) =>
      t.(pokemon := t.pokemon[b.id := RowOf(b)],
         stats := t.stats[b.id := b.stats],
         types := WithoutTypesOf(t.types, b.id) + TypeRowsFor(b.id, b.types))
  }

  /** The store after the turns for `ps`, in order. */
  function SeedAll(t: Tables, ps: seq<Option<Bundle>>): (r: Tables)
    ensures r.favorites == t.favorites && r.facts == t.facts
    ensures t.pokemon.Keys <= r.pokemon.Keys
    ensures forall i :: 0 <= i < |ps| && ps[i].Some? ==> ps[i].value.id in r.pokemon
    decreases |ps|
  {
    if ps == [] then t else SeedStep(SeedAll(t, ps[..|ps| - 1]), ps[|ps| - 1])
  }

  /** The last record in `ps` that carries id `k`. */
  function LastFor(ps: seq<Option<Bundle>>, k: int): (r: Option<Bundle>)
    ensures r.Some? ==> r.value.id == k && r in ps
    ensures r.Some? ==> exists i :: 0 <= i < |ps| && ps[i] == r && NoneLater(ps, i, k)
    ensures r.None? ==> forall i :: 0 <= i < |ps| ==> ps[i].None? || ps[i].value.id != k
    decreases |ps|
  {
    if ps == [] then None
    else
      var last := ps[|ps| - 1];
      if last.Some? && last.value.id == k then
        assert NoneLater(ps, |ps| - 1, k);
        last
      else
        var r := LastFor(ps[..|ps| - 1], k);
        assert forall i :: 0 <= i < |ps| - 1 ==> ps[..|ps| - 1][i] == ps[i];
        if r.Some? then
          var i :| 0 <= i < |ps| - 1 && ps[..|ps| - 1][i] == r && NoneLater(ps[..|ps| - 1], i, k);
          assert ps[i] == r && NoneLater(ps, i, k);
          r
        else r
  }

  /** No record after position `i` carries id `k`. */
  predicate NoneLater(ps: seq<Option<Bundle>>, i: int, k: int) {
    forall j :: 0 <= j < |ps| && i < j ==> ps[j].None? || ps[j].value.id != k
  }

  /** What the store holds for an id right after the record `b` was seeded. */
  function Seeded(b: Bundle): KeyView {
    KeyView(Some(RowOf(b)), Some(b.stats), b.types)
  }

  /** One turn sets the rows of the record's id and leaves every other id alone. */
  lemma SeedStepAt(t: Tables, p: Option<Bundle>, k: int)
    ensures At(SeedStep(t, p), k) ==
      if p.Some? && p.value.id == k then Seeded(p.value) else At(t, k)
  {
    if p.Some? {
      var b := p.value;
      AppendRowsTypes(WithoutTypesOf(t.types, b.id), b.id, b.types);
      TypesOfWithout(t.types, b.id, k);
    }
  }

  /** After the loop, an id holds what its last record says, or what it held before when no record carried it. */
  lemma {:induction false} SeedAllAt(t: Tables, ps: seq<Option<Bundle>>, k: int)
    ensures At(SeedAll(t, ps), k) ==
      match LastFor(ps, k)
      case Some(b) => Seeded(b)
      case None => At(t, k)
    decreases |ps|
  {
    if ps != [] {
      SeedAllAt(t, ps[..|ps| - 1], k);
      SeedStepAt(SeedAll(t, ps[..|ps| - 1]), ps[|ps| - 1], k);
    }
  }

  /** Seeding keeps the foreign keys: every row it writes belongs to a `pokemon` row it upserts first. */
  lemma {:induction false} SeedAllForeignKeys(t: Tables, ps: seq<Option<Bundle>>)
    requires ForeignKeys(t)
    ensures ForeignKeys(SeedAll(t, ps))
    decreases |ps|
  {
    if ps != [] {
      var before := SeedAll(t, ps[..|ps| - 1]);
      SeedAllForeignKeys(t, ps[..|ps| - 1]);
      if ps[|ps| - 1].Some? {
        var b := ps[|ps| - 1].value;
        var after := SeedStep(before, ps[|ps| - 1]);
        forall row | row in after.types
          ensures row.pokemonId in after.pokemon
        {
          if row !in WithoutTypesOf(before.types, b.id) {
            var i :| 0 <= i < |TypeRowsFor(b.id, b.types)| && TypeRowsFor(b.id, b.types)[i] == row;
          }
        }
      }
    }
  }

  /**
   * Running the loop again over the same answers changes nothing: the
   * `pokemon` and `pokemon_stats` rows, favorites and facts are equal, and
   * every id has the same types in the same order.
   */
  lemma SeedIdempotent(t: Tables, ps: seq<Option<Bundle>>)
    ensures var once := SeedAll(t, ps);
      var twice := SeedAll(once, ps);
      && twice.pokemon == once.pokemon && twice.stats == once.stats
      && twice.favorites == once.favorites && twice.facts == once.facts
      && forall k :: TypesOf(twice.types, k) == TypesOf(once.types, k)
  {
    var once := SeedAll(t, ps);
    var twice := SeedAll(once, ps);
    forall k
      ensures At(twice, k) == At(once, k)
    {
      SeedAllAt(t, ps, k);
      SeedAllAt(once, ps, k);
    }
    forall k | k in twice.pokemon || k in once.pokemon
      ensures k in twice.pokemon && k in once.pokemon && twice.pokemon[k] == once.pokemon[k]
    {
      assert At(twice, k) == At(once, k);
    }
    forall k | k in twice.stats || k in once.stats
      ensures k in twice.stats && k in once.stats && twice.stats[k] == once.stats[k]
    {
      assert At(twice, k) == At(once, k);
    }
    forall k
      ensures TypesOf(twice.types, k) == TypesOf(once.types, k)
    {
      assert At(twice, k) == At(once, k);
    }
  }

  /** A seeded record reads back through the detail route as it was normalised, and the cache does not refetch it. */
  lemma SeededReadsBack(t: Tables, ps: seq<Option<Bundle>>, k: int, resp: Option<Payload>)
    requires LastFor(ps, k).Some?
    ensures var s := SeedAll(t, ps);
      && DetailsOf(s, k) == Some(DetailsOfBundle(LastFor(ps, k).value))
      && Hydrate(s, k, resp) == Hydration(s, Ok(true))
  {
    SeedAllAt(t, ps, k);
  }

  /** The upstream's answers for ids 1..151, in loop order. */
  function Upstream151(api: Upstream): (r: seq<Option<Bundle>>)
    ensures |r| == 151
    ensures forall i :: 0 <= i < 151 ==> r[i] == FromResponse(api.Lookup(i + 1))
  {
    seq(151, i requires 0 <= i < 151 => FromResponse(api.Lookup(i + 1)))
  }

  // ---------------------------------------------------------------- the loop and the script

  /** `for (let id = 1; id <= 151; id++)`: fetch, skip a missing record, else upsert it. */
  method SeedPokemon(db: Store, api: Upstream)
    modifies db, api`fetches
    ensures db.View() == SeedAll(old(db.View()), Upstream151(api))
    ensures api.fetches == old(api.fetches) + 151
  {
    ghost var start := db.View();
    ghost var answers := Upstream151(api);
    var id := 1;
    while id <= 151
      invariant 1 <= id <= 152
      invariant db.View() == SeedAll(start, answers[..id - 1])
      invariant api.fetches == old(api.fetches) + (id - 1)
    {
      var p := GetPokemonFromAPI(api, id);
      assert answers[..id] == answers[..id - 1] + [p];
      SeedAllSnoc(start, answers[..id - 1], p);
      SeedOne(db, p);
      id := id + 1;
    }
    assert answers[..151] == answers;
  }

  /** The body of one turn: skip a missing record, else upsert it and replace its type rows. */
  method SeedOne(db: Store, p: Option<Bundle>)
    modifies db
    ensures db.View() == SeedStep(old(db.View()), p)
  {
    if p.Some? {
      var b := p.value;
      db.UpsertPokemon(b.id, RowOf(b));
      db.UpsertStats(b.id, b.stats);
      db.DeleteTypesOf(b.id);
      if |b.types| > 0 {
        db.InsertTypeRows(TypeRowsFor(b.id, b.types));
      }
      assert b.types == [] ==> db.types + TypeRowsFor(b.id, b.types) == db.types;
    }
  }

  /** One more answer is one more turn. */
  lemma SeedAllSnoc(t: Tables, ps: seq<Option<Bundle>>, p: Option<Bundle>)
    ensures SeedAll(t, ps + [p]) == SeedStep(SeedAll(t, ps), p)
  {
    assert (ps + [p])[..|ps|] == ps;
  }

  /** `run()`: the schema, the facts, then the 1..151 loop. */
  method Run(db: Store, api: Upstream, schema: string) returns (issued: seq<string>)
    modifies db, api`fetches
    ensures issued == Statements(schema)
    ensures db.View() == SeedAll(old(db.View()).(facts := SeedFacts), Upstream151(api))
    ensures api.fetches == old(api.fetches) + 151
  {
    issued := ApplySchema(schema);
    ReplaceFacts(db);
    SeedPokemon(db, api);
  }
}
