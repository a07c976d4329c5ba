/**
 * The `/api/pokemon` routes: `GET /` searches by name, or lists one page of
 * the stored Pokémon that have stats, filtered by type and sorted; `GET /:id`
 * answers the detail record, fetching it through the cache when needed.
 */
module PokemonRoutes {
  import opened Wrappers
  import opened Text
  import opened Seqs
  import opened Tables
  import opened PokeApi
  import opened Cache
  import opened Http

  /** The query string of `GET /`; `None` for a parameter that is not given. */
  datatype ListQuery = ListQuery(
    search: Option<string>, page: Option<string>, limit: Option<string>,
    typeFilter: Option<string>, sort: Option<string>)

  datatype SearchRow = SearchRow(id: int, name: string, sprite: string)

  datatype ListRow = ListRow(id: int, name: string, sprite: string, attack: int)

  datatype ListResponse =
    | SearchResults(rows: seq<SearchRow>)
    | Listing(items: seq<ListRow>, page: int, limit: int, total: int)

  // ---------------------------------------------------------------- search

  /** `LOWER(name) LIKE '%term%'`, with the term lower-cased. */
  predicate Matches(name: string, term: string) {
    Contains(Lower(name), Lower(term))
  }

  /** `LOWER(name) LIKE 'term%'`. */
  predicate StartsWith(name: string, term: string) {
    IsPrefix(Lower(term), Lower(name))
  }

  /**
   * The search order: names that start with the term come before those that
   * only contain it, and within each group names are in ascending order.
   */
  predicate SearchBefore(t: Tables, term: string, a: int, b: int) {
    var sa, sb := StartsWith(NameOf(t, a), term), StartsWith(NameOf(t, b), term);
    (sa && !sb) || (sa == sb && StrLe(NameOf(t, a), NameOf(t, b)))
  }

  function SearchLe(t: Tables, term: string): (int, int) -> bool {
    (a: int, b: int) => SearchBefore(t, term, a, b)
  }

  lemma SearchLeTotalPreorder(t: Tables, term: string)
    ensures TotalPreorder(SearchLe(t, term))
  {
    var le := SearchLe(t, term);
    forall a: int, b: int
      ensures le(a, b) || le(b, a)
    {
      StrLeTotal(NameOf(t, a), NameOf(t, b));
    }
    forall a: int, b: int, c: int | le(a, b) && le(b, c)
      ensures le(a, c)
    {
      if StrLe(NameOf(t, a), NameOf(t, b)) && StrLe(NameOf(t, b), NameOf(t, c)) {
        StrLeTransitive(NameOf(t, a), NameOf(t, b), NameOf(t, c));
      }
    }
  }

  /** The ids the search query selects: matching rows, in search order, at most ten. */
  function SearchIds(t: Tables, term: string): (r: seq<int>)
    ensures |r| <= 10 && r <= Ranked(t, term)
    ensures |r| < 10 ==> r == Ranked(t, term)
  {
    Slice(Ranked(t, term), 0, 10)
  }

  /**
   * The search answers at most ten distinct stored Pokémon whose names
   * contain the term, ordered with the names that start with it first; a
   * match is left out only when ten others that come before it are shown.
   */
  lemma SearchRanked(t: Tables, term: string)
    ensures var r := SearchIds(t, term);
      && |r| <= 10 && Distinct(r)
      && (forall id :: id in r ==> id in t.pokemon && Matches(NameOf(t, id), term))
      && (forall i, j :: 0 <= i < j < |r| ==> SearchBefore(t, term, r[i], r[j]))
      && (forall id :: id in t.pokemon && Matches(NameOf(t, id), term) && id !in r ==>
            |r| == 10 && forall j :: j in r ==> SearchBefore(t, term, j, id))
  {
    SearchIdsMembers(t, term);
    SearchIdsOrdered(t, term);
    SearchIdsLeftOut(t, term);
  }

  /** The matching ids, in search order. */
  function Ranked(t: Tables, term: string): (r: seq<int>)
    ensures Distinct(r)
    ensures forall id :: id in r <==> id in t.pokemon && Matches(NameOf(t, id), term)
    ensures SortedBy(r, SearchLe(t, term))
  {
    var m := (id: int) => Matches(NameOf(t, id), term);
    var matching := Filter(SortedIds(t.pokemon.Keys), m);
    var r := SortBy(matching, SearchLe(t, term));
    SortedIdsDistinct(t.pokemon.Keys);
    FilterDistinct(SortedIds(t.pokemon.Keys), m);
    PermutationDistinct(matching, r);
    SearchLeTotalPreorder(t, term);
    SortBySorted(matching, SearchLe(t, term));
    assert forall id :: id in r <==> id in multiset(r);
    assert forall id :: id in matching <==> id in multiset(matching);
    r
  }

  lemma SearchIdsMembers(t: Tables, term: string)
    ensures var r := SearchIds(t, term);
      && |r| <= 10 && Distinct(r)
      && forall id :: id in r ==> id in t.pokemon && Matches(NameOf(t, id), term)
  {
    PrefixOfDistinct(Ranked(t, term), 10);
  }

  lemma SearchIdsOrdered(t: Tables, term: string)
    ensures var r := SearchIds(t, term);
      forall i, j :: 0 <= i < j < |r| ==> SearchBefore(t, term, r[i], r[j])
  {
    var sorted := Ranked(t, term);
    var r := SearchIds(t, term);
    forall i, j | 0 <= i < j < |r|
      ensures SearchBefore(t, term, r[i], r[j])
    {
      assert r[i] == sorted[i] && r[j] == sorted[j];
      assert SearchLe(t, term)(sorted[i], sorted[j]);
    }
  }

  lemma SearchIdsLeftOut(t: Tables, term: string)
    ensures var r := SearchIds(t, term);
      forall id :: id in t.pokemon && Matches(NameOf(t, id), term) && id !in r ==>
        |r| == 10 && forall j :: j in r ==> SearchBefore(t, term, j, id)
  {
    var sorted := Ranked(t, term);
    var r := SearchIds(t, term);
    forall id | id in t.pokemon && Matches(NameOf(t, id), term) && id !in r
      ensures |r| == 10 && forall j :: j in r ==> SearchBefore(t, term, j, id)
    {
      LeftOutOfPrefix(sorted, 10, SearchLe(t, term), id);
    }
  }

  /** `SELECT id, name, sprite FROM pokemon WHERE ... LIMIT 10`. */
  function Search(t: Tables, term: string): (rows: seq<SearchRow>)
    ensures |rows| == |SearchIds(t, term)|
    ensures forall i :: 0 <= i < |rows| ==>
      var id := SearchIds(t, term)[i];
      rows[i] == SearchRow(id, NameOf(t, id), SpriteOf(t, id))
  {
    var ids := SearchIds(t, term);
    seq(|ids|, i requires 0 <= i < |ids| => SearchRow(ids[i], NameOf(t, ids[i]), SpriteOf(t, ids[i])))
  }

  // ---------------------------------------------------------------- paging

  /** `parseInt(v, 10)` of a query parameter, where an absent one takes the destructuring default. */
  function ParsedOr(raw: Option<string>, absent: int): Option<int> {
    if raw.None? then Some(absent) else ParseInt(raw.value)
  }

  /** `Math.max(parseInt(page, 10) || 1, 1)`. */
  function PageNumber(raw: Option<string>): (p: int)
    ensures p >= 1
    ensures var v := ParsedOr(raw, 1);
      p == if v.Some? && v.value >= 1 then v.value else 1
  {
    var v := ParsedOr(raw, 1);
    var n := if v.None? || v.value == 0 then 1 else v.value;
    if n >= 1 then n else 1
  }

  /** `Math.min(Math.max(parseInt(limit, 10) || 20, 1), 50)`. */
  function PageLimit(raw: Option<string>): (l: int)
    ensures 1 <= l <= 50
    ensures var v := ParsedOr(raw, 20);
      && (v.None? || v.value == 0 ==> l == 20)
      && (v.Some? && v.value < 0 ==> l == 1)
      && (v.Some? && 1 <= v.value <= 50 ==> l == v.value)
      && (v.Some? && v.value > 50 ==> l == 50)
  {
    var v := ParsedOr(raw, 20);
    var n := if v.None? || v.value == 0 then 20 else v.value;
    Min(if n >= 1 then n else 1, 50)
  }

  /** A page number and a limit written as decimals are taken at their value; the limit is capped at 50. */
  lemma DecimalPaging(p: nat, l: nat)
    requires p >= 1 && l >= 1
    ensures PageNumber(Some(Decimal(p))) == p
    ensures PageLimit(Some(Decimal(l))) == Min(l, 50)
  {
    DecimalPage(p);
    DecimalLimit(l);
  }

  lemma DecimalPage(p: nat)
    requires p >= 1
    ensures PageNumber(Some(Decimal(p))) == p
  {
    DecimalRead(p);
  }

  lemma DecimalLimit(l: nat)
    requires l >= 1
    ensures PageLimit(Some(Decimal(l))) == Min(l, 50)
  {
    DecimalRead(l);
  }

  /** A decimal on its own is read at its value. */
  lemma DecimalRead(n: nat)
    ensures ParseInt(Decimal(n)) == Some(n)
  {
    ParseDecimal(n, []);
    assert Decimal(n) + [] == Decimal(n);
  }

  // ---------------------------------------------------------------- listing, as specified

  datatype OrderBy = IdAsc | NameAsc | NameDesc | AttackAsc | AttackDesc

  /** The order a `sort` value selects; any other value, and none, select `p.id ASC`. */
  function SortOrder(sort: Option<string>): (o: OrderBy)
    ensures o == IdAsc <==> sort !in {Some("name_asc"), Some("name_desc"), Some("atk_asc"), Some("atk_desc")}
    ensures sort == Some("name_asc") ==> o == NameAsc
    ensures sort == Some("name_desc") ==> o == NameDesc
    ensures sort == Some("atk_asc") ==> o == AttackAsc
    ensures sort == Some("atk_desc") ==> o == AttackDesc
  {
    match sort
    case Some("name_asc") => NameAsc
    case Some("name_desc") => NameDesc
    case Some("atk_asc") => AttackAsc
    case Some("atk_desc") => AttackDesc
    case _ => IdAsc
  }

  /** `a` may come before `b` in the order `o`. */
  predicate KeyBefore(t: Tables, o: OrderBy, a: int, b: int) {
    match o
    case IdAsc => a <= b
    case NameAsc => StrLe(NameOf(t, a), NameOf(t, b))
    case NameDesc => StrLe(NameOf(t, b), NameOf(t, a))
    case AttackAsc => AttackOf(t, a) <= AttackOf(t, b)
    case AttackDesc => AttackOf(t, b) <= AttackOf(t, a)
  }

  function KeyLe(t: Tables, o: OrderBy): (int, int) -> bool {
    (a: int, b: int) => KeyBefore(t, o, a, b)
  }

  lemma KeyLeTotalPreorder(t: Tables, o: OrderBy)
    ensures TotalPreorder(KeyLe(t, o))
  {
    var le := KeyLe(t, o);
    forall a: int, b: int
      ensures le(a, b) || le(b, a)
    {
      StrLeTotal(NameOf(t, a), NameOf(t, b));
    }
    forall a: int, b: int, c: int | le(a, b) && le(b, c)
      ensures le(a, c)
    {
      if o == NameAsc {
        StrLeTransitive(NameOf(t, a), NameOf(t, b), NameOf(t, c));
      } else if o == NameDesc {
        StrLeTransitive(NameOf(t, c), NameOf(t, b), NameOf(t, a));
      }
    }
  }

  /** The `type` filter: none when the parameter is missing or empty, else a type row for the id. */
  predicate TypeMatches(t: Tables, id: int, ty: Option<string>) {
    !Truthy(ty) || TypeRow(id, ty.value) in t.types
  }

  /** `FROM pokemon p JOIN pokemon_stats ps ON ps.pokemon_id = p.id`: one id per joined row. */
  function JoinedIds(t: Tables): seq<int> {
    SortedIds(t.pokemon.Keys * t.stats.Keys)
  }

  /** The ids the listing may show: stored, with stats, and of the requested type. */
  function FilteredIds(t: Tables, ty: Option<string>): (r: seq<int>)
    ensures Distinct(r)
    ensures forall id :: id in r <==> id in t.pokemon && id in t.stats && TypeMatches(t, id, ty)
  {
    SortedIdsDistinct(t.pokemon.Keys * t.stats.Keys);
    FilterDistinct(JoinedIds(t), (id: int) => TypeMatches(t, id, ty));
    Filter(JoinedIds(t), (id: int) => TypeMatches(t, id, ty))
  }

  /** The filtered ids in the requested order. */
  function OrderedIds(t: Tables, ty: Option<string>, o: OrderBy): (r: seq<int>)
    ensures multiset(r) == multiset(FilteredIds(t, ty))
    ensures Distinct(r)
    ensures SortedBy(r, KeyLe(t, o))
  {
    var f := FilteredIds(t, ty);
    KeyLeTotalPreorder(t, o);
    SortBySorted(f, KeyLe(t, o));
    PermutationDistinct(f, SortBy(f, KeyLe(t, o)));
    SortBy(f, KeyLe(t, o))
  }

  /** `LIMIT l OFFSET (p - 1) * l` of the ordered ids. */
  function PageIds(t: Tables, ty: Option<string>, o: OrderBy, p: int, l: int): (r: seq<int>)
    requires p >= 1 && l >= 1
    ensures var all := OrderedIds(t, ty, o);
      |r| == if (p - 1) * l >= |all| then 0 else Min(l, |all| - (p - 1) * l)
    ensures var all := OrderedIds(t, ty, o);
      forall i :: 0 <= i < |r| ==> r[i] == all[(p - 1) * l + i]
  {
    Slice(OrderedIds(t, ty, o), (p - 1) * l, l)
  }

  /** `SELECT p.id, p.name, p.sprite, ps.attack` for each id. */
  function Rows(t: Tables, ids: seq<int>): (rows: seq<ListRow>)
    ensures |rows| == |ids|
    ensures forall i :: 0 <= i < |ids| ==>
      rows[i] == ListRow(ids[i], NameOf(t, ids[i]), SpriteOf(t, ids[i]), AttackOf(t, ids[i]))
  {
    seq(|ids|, i requires 0 <= i < |ids| =>
      ListRow(ids[i], NameOf(t, ids[i]), SpriteOf(t, ids[i]), AttackOf(t, ids[i])))
  }

  /** What each `sort` value means for two ids listed one after the other. */
  lemma OrderedBySortKey(t: Tables, ty: Option<string>, o: OrderBy)
    ensures var r := OrderedIds(t, ty, o);
      o == IdAsc ==> forall i, j :: 0 <= i < j < |r| ==> r[i] < r[j]
    ensures var r := OrderedIds(t, ty, o);
      o == NameAsc ==> forall i, j :: 0 <= i < j < |r| ==> StrLe(NameOf(t, r[i]), NameOf(t, r[j]))
    ensures var r := OrderedIds(t, ty, o);
      o == NameDesc ==> forall i, j :: 0 <= i < j < |r| ==> StrLe(NameOf(t, r[j]), NameOf(t, r[i]))
    ensures var r := OrderedIds(t, ty, o);
      o == AttackAsc ==> forall i, j :: 0 <= i < j < |r| ==> AttackOf(t, r[i]) <= AttackOf(t, r[j])
    ensures var r := OrderedIds(t, ty, o);
      o == AttackDesc ==> forall i, j :: 0 <= i < j < |r| ==> AttackOf(t, r[j]) <= AttackOf(t, r[i])
  {
    var r := OrderedIds(t, ty, o);
    forall i, j | 0 <= i < j < |r|
      ensures KeyBefore(t, o, r[i], r[j]) && r[i] != r[j]
    {
      assert KeyLe(t, o)(r[i], r[j]);
    }
  }

  /** Every id on a page is one the listing may show, and a page holds at most `l` of them. */
  lemma PageQualifies(t: Tables, ty: Option<string>, o: OrderBy, p: int, l: int)
    requires p >= 1 && l >= 1
    ensures |PageIds(t, ty, o, p, l)| <= l
    ensures forall id :: id in PageIds(t, ty, o, p, l) ==>
      id in t.pokemon && id in t.stats && TypeMatches(t, id, ty)
  {
    var r := OrderedIds(t, ty, o);
    forall id | id in PageIds(t, ty, o, p, l)
      ensures id in FilteredIds(t, ty)
    {
      var i :| 0 <= i < |PageIds(t, ty, o, p, l)| && PageIds(t, ty, o, p, l)[i] == id;
      assert r[(p - 1) * l + i] == id;
      assert id in multiset(r);
    }
  }

  /** Two different pages never show the same Pokémon. */
  lemma PagesDisjoint(t: Tables, ty: Option<string>, o: OrderBy, p1: int, p2: int, l: int)
    requires p1 >= 1 && p2 >= 1 && l >= 1 && p1 != p2
    ensures forall id :: id in PageIds(t, ty, o, p1, l) ==> id !in PageIds(t, ty, o, p2, l)
  {
    var r := OrderedIds(t, ty, o);
    if p1 < p2 {
      PagesApart(p1, p2, l);
    } else {
      PagesApart(p2, p1, l);
    }
    var o1: nat, o2: nat := (p1 - 1) * l, (p2 - 1) * l;
    SlicesDisjoint(r, o1, l, o2, l);
  }

  lemma {:induction false} PagesApart(p1: int, p2: int, l: int)
    requires 1 <= p1 < p2 && l >= 1
    ensures 0 <= (p1 - 1) * l && (p1 - 1) * l + l <= (p2 - 1) * l
    decreases p2 - p1
  {
    NextOffset(p2 - 1, l);
    if p1 < p2 - 1 {
      PagesApart(p1, p2 - 1, l);
    }
  }

  lemma NextOffset(p: int, l: int)
    ensures (p + 1 - 1) * l == (p - 1) * l + l
  {
  }

  /** Page `p` followed by page `p + 1` is the run of `2 * l` ids that starts where page `p` does. */
  lemma ConsecutivePages(t: Tables, ty: Option<string>, o: OrderBy, p: int, l: int)
    requires p >= 1 && l >= 1
    ensures PageIds(t, ty, o, p, l) + PageIds(t, ty, o, p + 1, l)
         == Slice(OrderedIds(t, ty, o), (p - 1) * l, 2 * l)
  {
    AdjacentPages(OrderedIds(t, ty, o), p, l);
  }

  lemma AdjacentPages(r: seq<int>, p: int, l: int)
    requires p >= 1 && l >= 1
    ensures (p - 1) * l >= 0 && (p + 1 - 1) * l >= 0
    ensures Slice(r, (p - 1) * l, l) + Slice(r, (p + 1 - 1) * l, l) == Slice(r, (p - 1) * l, 2 * l)
  {
    PagesApart(p, p + 1, l);
    NextOffset(p, l);
    var off: nat, next: nat := (p - 1) * l, (p + 1 - 1) * l;
    AdjacentSlices(r, off, l, next - off);
  }

  /** Every id the listing may show is on some page. */
  lemma PagesCover(t: Tables, ty: Option<string>, o: OrderBy, l: int, id: int) returns (p: int)
    requires l >= 1 && id in t.pokemon && id in t.stats && TypeMatches(t, id, ty)
    ensures p >= 1 && id in PageIds(t, ty, o, p, l)
  {
    var r := OrderedIds(t, ty, o);
    InOrdered(t, ty, o, id);
    var k := Index(r, id);
    assert r[k] == id;
    p := k / l + 1;
    SliceHoldsIndex(r, k, l, p);
  }

  lemma InOrdered(t: Tables, ty: Option<string>, o: OrderBy, id: int)
    requires id in t.pokemon && id in t.stats && TypeMatches(t, id, ty)
    ensures id in OrderedIds(t, ty, o)
  {
    assert id in multiset(FilteredIds(t, ty));
  }

  /** The element at position `k` is on page `k / l + 1`. */
  lemma SliceHoldsIndex(r: seq<int>, k: nat, l: int, p: int)
    requires k < |r| && l >= 1 && p == k / l + 1
    ensures p >= 1 && (p - 1) * l >= 0 && r[k] in Slice(r, (p - 1) * l, l)
  {
    assert p - 1 == k / l;
    assert k == (k / l) * l + k % l;
    var off: nat := (p - 1) * l;
    assert off <= k < off + l;
    assert Slice(r, off, l)[k - off] == r[k];
  }

  /** The position of an element in a sequence that holds it. */
  function Index(s: seq<int>, x: int): (i: nat)
    requires x in s
    ensures i < |s| && s[i] == x
  {
    if s[0] == x then 0 else 1 + Index(s[1..], x)
  }

  /** The count of the listing is the number of Pokémon it may show, whatever the page. */
  lemma TotalCountsQualifying(t: Tables, ty: Option<string>)
    ensures |FilteredIds(t, ty)|
         == |set id | id in t.pokemon && id in t.stats && TypeMatches(t, id, ty)|
  {
    var f := FilteredIds(t, ty);
    DistinctCard(f);
    assert (set x | x in f) == (set id | id in t.pokemon && id in t.stats && TypeMatches(t, id, ty));
  }

  // ---------------------------------------------------------------- listing, as the handler builds it

  /** A WHERE fragment the handler can push: `p.id IN (SELECT pokemon_id FROM pokemon_types WHERE type = ?)`. */
  datatype Condition = TypeIn

  /** A bound value of a placeholder. */
  datatype Param = StrParam(s: string) | IntParam(n: int)

  /** The listing statement: its WHERE fragments, joined by AND, and its ORDER BY. */
  datatype Query = Query(conds: seq<Condition>, orderBy: OrderBy)

  predicate Holds(t: Tables, id: int, c: Condition, param: Param) {
    match c
    case TypeIn => param.StrParam? && TypeRow(id, param.s) in t.types
  }

  /** The WHERE clause with its placeholders bound in order: every fragment holds. */
  predicate Where(t: Tables, id: int, conds: seq<Condition>, params: seq<Param>)
    requires |params| == |conds|
  {
    forall i :: 0 <= i < |conds| ==> Holds(t, id, conds[i], params[i])
  }

  /** The parameter list of the page query: one per fragment, then `LIMIT` and `OFFSET`. */
  predicate PageParams(q: Query, params: seq<Param>) {
    && |params| == |q.conds| + 2
    && params[|params| - 2].IntParam? && params[|params| - 2].n >= 0
    && params[|params| - 1].IntParam? && params[|params| - 1].n >= 0
  }

  /** The page query run against the store. */
  function RunPage(t: Tables, q: Query, params: seq<Param>): (r: seq<ListRow>)
    requires PageParams(q, params)
    ensures |r| <= params[|params| - 2].n
    ensures forall i :: 0 <= i < |r| ==>
      r[i].id in t.pokemon && r[i].id in t.stats && Where(t, r[i].id, q.conds, params[..|params| - 2])
  {
    var bound := params[..|params| - 2];
    var limit, offset := params[|params| - 2].n, params[|params| - 1].n;
    var ids := Filter(JoinedIds(t), (id: int) => Where(t, id, q.conds, bound));
    SliceOfSorted(ids, KeyLe(t, q.orderBy), offset, limit);
    Rows(t, Slice(SortBy(ids, KeyLe(t, q.orderBy)), offset, limit))
  }

  /** The count query run against the store, with the placeholders it has. */
  function RunCount(t: Tables, conds: seq<Condition>, params: seq<Param>): (n: int)
    requires |params| == |conds|
    ensures n == |set id | id in t.pokemon && id in t.stats && Where(t, id, conds, params)|
  {
    var where := (id: int) => Where(t, id, conds, params);
    SortedIdsDistinct(t.pokemon.Keys * t.stats.Keys);
    FilterCard(JoinedIds(t), where);
    JoinedSet(t, where);
    assert (set id | id in t.pokemon && id in t.stats && where(id))
        == set id | id in t.pokemon && id in t.stats && Where(t, id, conds, params);
    |Filter(JoinedIds(t), where)|
  }

  /** The joined ids that pass a test are the stored ids with stats that pass it. */
  lemma JoinedSet(t: Tables, p: int -> bool)
    ensures (set id | id in JoinedIds(t) && p(id)) == set id | id in t.pokemon && id in t.stats && p(id)
  {
  }

  /** Builds the WHERE fragments, the parameters and the ORDER BY, as the handler does. */
  method BuildListQuery(ty: Option<string>, sort: Option<string>, limit: int, offset: int)
    returns (q: Query, params: seq<Param>)
    ensures |params| == |q.conds| + 2
    ensures params[|params| - 2..] == [IntParam(limit), IntParam(offset)]
    ensures forall t, id :: Where(t, id, q.conds, params[..|params| - 2]) <==> TypeMatches(t, id, ty)
    ensures q.orderBy == SortOrder(sort)
  {
    var conds: seq<Condition> := [];
    params := [];
    if Truthy(ty) {
      conds := conds + [TypeIn];
      params := params + [StrParam(ty.value)];
    }
    var orderBy := IdAsc;
    if sort == Some("name_asc") {
      orderBy := NameAsc;
    } else if sort == Some("name_desc") {
      orderBy := NameDesc;
    } else if sort == Some("atk_asc") {
      orderBy := AttackAsc;
    } else if sort == Some("atk_desc") {
      orderBy := AttackDesc;
    }
    q := Query(conds, orderBy);
    params := params + [IntParam(limit), IntParam(offset)];
    var bound := params[..|params| - 2];
    assert bound == if Truthy(ty) then [StrParam(ty.value)] else [];
    forall t: Tables, id: int
      ensures Where(t, id, conds, bound) <==> TypeMatches(t, id, ty)
    {
      if Truthy(ty) {
        assert Holds(t, id, conds[0], bound[0]) <==> TypeRow(id, ty.value) in t.types;
      }
    }
  }

  /** The statements the handler builds select the page and the count that the listing specifies. */
  lemma BuiltQueryMeaning(t: Tables, ty: Option<string>, sort: Option<string>, p: int, l: int,
                          q: Query, params: seq<Param>)
    requires p >= 1 && l >= 1
    requires |params| == |q.conds| + 2
    requires params[|params| - 2..] == [IntParam(l), IntParam((p - 1) * l)]
    requires forall id :: Where(t, id, q.conds, params[..|params| - 2]) <==> TypeMatches(t, id, ty)
    requires q.orderBy == SortOrder(sort)
    ensures PageParams(q, params)
    ensures RunPage(t, q, params) == Rows(t, PageIds(t, ty, SortOrder(sort), p, l))
    ensures RunCount(t, q.conds, params[..|params| - 2]) == |FilteredIds(t, ty)|
  {
    var bound := params[..|params| - 2];
    assert params[|params| - 2] == IntParam(l) && params[|params| - 1] == IntParam((p - 1) * l);
    FilterAgrees(JoinedIds(t),
      (id: int) => Where(t, id, q.conds, bound),
      (id: int) => TypeMatches(t, id, ty));
  }

  /**
   * `GET /`: a truthy `search` answers the search; otherwise one page of the
   * filtered, sorted listing, with the page number and limit it used and the
   * count of all Pokémon the listing may show.
   */
  method ListPokemon(db: Store, query: ListQuery) returns (r: ListResponse)
    ensures Truthy(query.search) ==> r == SearchResults(Search(db.View(), query.search.value))
    ensures !Truthy(query.search) ==>
      && r.Listing?
      && r.page == PageNumber(query.page) && r.limit == PageLimit(query.limit)
      && r.items == Rows(db.View(), PageIds(db.View(), query.typeFilter, SortOrder(query.sort), r.page, r.limit))
      && r.total == |FilteredIds(db.View(), query.typeFilter)|
  {
    var t := db.View();
    if Truthy(query.search) {
      return SearchResults(Search(t, query.search.value));
    }
    var p := PageNumber(query.page);
    var l := PageLimit(query.limit);
    var offset := (p - 1) * l;
    var q, params := BuildListQuery(query.typeFilter, query.sort, l, offset);
    BuiltQueryMeaning(t, query.typeFilter, query.sort, p, l, q, params);
    var items := RunPage(t, q, params);
    var total := RunCount(t, q.conds, params[..|params| - 2]);
    r := Listing(items, p, l, total);
  }

  // ---------------------------------------------------------------- detail

  /**
   * `GET /:id`: 400 when the id parses to NaN or 0, 500 when the cache
   * throws, 404 when no row exists afterwards, else the detail record.
   */
  method GetPokemon(db: Store, api: Upstream, rawId: string) returns (r: Response<Details>)
    modifies db, api`fetches
    ensures var id := ParseInt(rawId);
      id.None? || id.value == 0 ==>
        r == BadRequest && db.View() == old(db.View()) && api.fetches == old(api.fetches)
    ensures var id := ParseInt(rawId);
      id.Some? && id.value != 0 ==>
        var h := Hydrate(old(db.View()), id.value, api.Lookup(id.value));
        && db.View() == h.tables
        && api.fetches == old(api.fetches) + (if id.value in old(db.pokemon) then 0 else 1)
        && (h.result.Err? ==> r == ServerError)
        && (h.result.Ok? && DetailsOf(h.tables, id.value).None? ==> r == NotFound)
        && (h.result.Ok? && DetailsOf(h.tables, id.value).Some? ==> r == Json(DetailsOf(h.tables, id.value).value))
  {
    var id := ParseInt(rawId);
    if id.None? || id.value == 0 {
      return BadRequest;
    }
    var details := GetPokemonDetails(db, api, id.value);
    if details.Err? {
      return ServerError;
    }
    if details.value.None? {
      return NotFound;
    }
    r := Json(details.value.value);
  }
}
