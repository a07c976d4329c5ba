# Pokédex server, modelled in Dafny

This project models the data logic of a small Pokédex web server written in JavaScript.
The server uses Express, a MySQL database and the public PokeAPI.

The database is one in-memory store with five tables:
- `pokemon`: a map from id to name, sprite, height and weight.
- `pokemon_stats`: a map from id to hp, attack, defense and speed.
- `pokemon_types`: a sequence of `(id, type)` rows.
- `favorites`: a set of ids.
- `facts`: a sequence of strings.

The store exists in two forms:
- `Tables.Tables` is a value. The read-only queries are plain functions over it.
- `Tables.Store` is a class. Each of its methods is one SQL write statement, and `View()` returns its current value.

The upstream API is `PokeApi.Upstream`. It is an oracle that maps an id to an optional payload, and it has a ghost counter of fetches.

Six pieces sit on top of the store:
- **Listing and query engine** (`pokemon_routes.dfy`):
  - the name search: substring match, names that start with the term first, then by name, at most ten rows;
  - page and limit normalisation;
  - the type filter and the sort enumeration;
  - the page query and the count query, built the way the handler builds them;
  - the detail route with its 400 and 404 answers.
- **Read-through cache** (`cache.dfy`): `ensurePokemonInDB` and `getPokemonDetails`.
- **Upstream normaliser** (`pokeapi.dfy`): from payload to bundle.
- **Favorites ledger** (`favorites.dfy`): mark, unmark, and the list sorted by name.
- **Profile aggregates** (`profile.dfy`): the two counts and the most frequent type among the favorites.
- **Seeder** (`seed.dfy`): splitting the schema into statements, replacing the facts, and the upsert loop over ids 1..151.

Some helpers are shared:
- `text.dfy`: JavaScript's `parseInt(s, 10)`, lower-casing, LIKE matching, string order, trimming, split and join.
- `seqs.dfy`: filter, insertion sort by a total preorder, slices, and the ascending ids of a set.
- `http.dfy`: the response statuses.
- `wrappers.dfy`: `Option` and `Result`.

Where the design notes and the code disagree, the model follows the code:
- An empty `search` string is not answered with an empty list. It is falsy, so the request falls through to the listing.
- The favorites list takes no type or sort parameter and has no attack column. It is a join with `pokemon`, sorted by name.
- The cache writes with plain `INSERT`, not "insert, ignore if present". A duplicate key is an error, and the route answers 500.
- The seeder calls the upstream client directly and upserts. It does not go through the cache.
- Ids are not required to be positive. Only NaN and 0 are refused, so a negative id goes to the cache and the upstream.

## Model

| member | source | states |
|---|---|---|
| Text.ParseInt | server/routes/pokemon.js:137 | `parseInt(s, 10)`: NaN exactly when no decimal digit follows the leading white space and an optional sign; a negative result only with a leading `-` |
| Text.ParseDecimal | server/routes/pokemon.js:137 | `parseInt` reads back the decimal text of every natural number, whatever non-digit text follows |
| Text.ParsePositive | server/routes/pokemon.js:137 | a run of decimal digits, followed by anything but a digit, is read at its value |
| Text.ParseMinus | server/routes/pokemon.js:137 | after a `-`, a run of decimal digits, followed by anything but a digit, is read as its value negated |
| Text.ParsePlus | server/routes/pokemon.js:137 | after a `+`, a run of decimal digits, followed by anything but a digit, is read at its value |
| Text.ParseNegativeDecimal | server/routes/pokemon.js:137 | `parseInt` reads `-` followed by the decimal text of `n` as `-n`, whatever non-digit text follows |
| Text.ParseSkipsWhiteSpace | server/routes/pokemon.js:137 | leading white space does not change what `parseInt` reads |
| Text.Trim | server/scripts/seed.js:14 | `trim()`: the result has no white space at either end, and it is the contiguous part of the input between the removed runs of white space |
| Text.Split | server/scripts/seed.js:14 | `split(';')`: at least one piece, no piece holds `;`, and joining the pieces with `;` gives the text back |
| Text.SplitJoin | server/scripts/seed.js:14 | `split(';')` inverts joining with `;` for pieces that hold no `;` |
| Tables.Store.InsertPokemon | server/services/cache.js:11-14 | a plain INSERT: an id already present gives a duplicate-key error and changes nothing; otherwise exactly that row is added |
| Tables.Store.InsertStats | server/services/cache.js:15-18 | the same for `pokemon_stats` |
| Tables.Store.InsertTypeRows | server/services/cache.js:20-23 | the batch of type rows is appended after the existing rows, and nothing else changes |
| Tables.Store.UpsertPokemon | server/scripts/seed.js:45-48 | INSERT ... ON DUPLICATE KEY UPDATE: the id's row becomes the given row, and nothing else changes |
| Tables.Store.UpsertStats | server/scripts/seed.js:49-52 | the same for `pokemon_stats` |
| Tables.Store.DeleteTypesOf | server/scripts/seed.js:53 | exactly the type rows of that id are removed |
| Tables.Store.InsertIgnoreFavorite | server/routes/favorites.js:24 | INSERT IGNORE: the id joins the set when it has a `pokemon` row; a duplicate, or a failing foreign key, leaves the store unchanged |
| Tables.Store.DeleteFavorite | server/routes/favorites.js:38 | the id leaves the set; an absent id is no error, and nothing else changes |
| Tables.Store.DeleteAllFacts | server/scripts/seed.js:32 | `facts` becomes empty, and nothing else changes |
| Tables.Store.InsertFacts | server/scripts/seed.js:33-34 | the batch is appended to `facts` |
| Tables.TypesOf | server/services/cache.js:34 | the type names of an id's rows, in stored order; a type is listed exactly when a row `(id, type)` exists |
| Tables.AppendRowsTypes | server/services/cache.js:20-23 | appending the rows for one id adds those types to that id, in order, and leaves the types of every other id unchanged |
| PokeApi.FindStat | server/services/pokeapi.js:11-14 | `stats.find(...)` by name: none exactly when no entry has the name, otherwise the first entry that has it |
| PokeApi.ChooseSprite | server/services/pokeapi.js:20 | the official artwork if it is present and non-empty; otherwise `front_default` if it is present and non-empty; otherwise `''` |
| PokeApi.BaseStat | server/services/pokeapi.js:11-14 | the `base_stat` of the first entry with the name, or 0 when no entry has it |
| PokeApi.Normalise | server/services/pokeapi.js:9-25 | id, name, height and weight are copied; the types are the payload's type names in order; the sprite follows the fallback chain; each of the four stats is the first matching entry's `base_stat`, or 0 |
| PokeApi.OtherStatsIgnored | server/services/pokeapi.js:10-15 | inserting a stat entry under any other name, anywhere, leaves the normalised record unchanged |
| PokeApi.FromResponse | server/services/pokeapi.js:6-7 | a non-ok response gives null, and an ok one gives the normalised payload |
| PokeApi.Upstream.Fetch | server/services/pokeapi.js:5-6 | one fetch: the oracle's answer for the id, and the fetch counter goes up by one |
| PokeApi.GetPokemonFromAPI | server/services/pokeapi.js:4-26 | one fetch, and the result is null or the normalised payload |
| Cache.InsertBundle | server/services/cache.js:11-24 | the three writes: a taken `pokemon` key fails and changes nothing; a taken stats key fails after the `pokemon` row is written; otherwise the result is true, the id has the fetched row, the fetched stats and its old types followed by the fetched ones, and other ids, favorites and facts are untouched; the foreign keys are kept |
| Cache.Hydrate | server/services/cache.js:4-25 | a stored id gives true and leaves the store unchanged; a missing id that the upstream does not know gives false and leaves it unchanged; otherwise the bundle is inserted; rows of ids other than the fetched one, favorites and facts never change |
| Cache.HydrateIdempotent | server/services/cache.js:4-25 | a second call with the same upstream answer leaves the store as the first call left it, whatever id the answer carries |
| Cache.ForeignIdFailsLater | server/services/cache.js:8-14 | an absent id that the upstream answers with another id stays absent, and the next request for it fails with a duplicate key on the other id |
| Cache.HydrateFailsOnlyOnForeignId | server/services/cache.js:11-18 | on a store whose foreign keys hold, the inserts fail only when the upstream answers with another id that is already stored |
| Cache.FetchedReadsBack | server/services/cache.js:11-24 | an id that is not stored, fetched with its own id, gives true, and its details then read back exactly the normalised record |
| Cache.StoredRowNotRepaired | server/services/cache.js:6 | a stored row is answered as stored: missing stats or type rows are not repaired |
| Cache.ForeignIdAnswerNotFound | server/services/cache.js:4-31 | on a consistent store, an upstream that answers an absent id with another absent id: the call gives true and the other id gets its row, yet the id asked for has none and its details are null |
| Cache.DetailsOf | server/services/cache.js:30-44 | null exactly when the id has no `pokemon` row; otherwise its columns, its stats row or none (`{}`), and its types in stored order |
| Cache.EnsurePokemonInDB | server/services/cache.js:4-25 | the new store and the result are those of `Hydrate` on the upstream's answer; one fetch on a miss, none on a hit |
| Cache.EnsureTwice | server/services/cache.js:4-25 | two calls for one id that the upstream answers with that id, on a consistent store: both give true, the upstream is asked once on a miss and never on a hit, and the store is that of one hydration |
| Cache.GetPokemonDetails | server/services/cache.js:27-45 | hydrate, then read back: an error from the cache propagates; otherwise the result is the details after hydration, whatever the boolean was |
| PokemonRoutes.Ranked | server/routes/pokemon.js:39-45 | the matching ids, once each: exactly the stored ids whose lower-cased name contains the lower-cased term, in search order (prefix matches first, then by name) |
| PokemonRoutes.SearchIds | server/routes/pokemon.js:39-46 | `LIMIT 10`: at most ten ids, a prefix of the ranked matches, and all of them when fewer than ten |
| PokemonRoutes.SearchRanked | server/routes/pokemon.js:35-47 | at most ten distinct stored ids whose lower-cased name contains the lower-cased term; names that start with the term come first, and names ascend within each group; a match is left out only when ten shown rows all rank before it |
| PokemonRoutes.Search | server/routes/pokemon.js:39-49 | one `{id, name, sprite}` row for each ranked id, in order |
| PokemonRoutes.PageNumber | server/routes/pokemon.js:55 | the page is at least 1; a parsed value of at least 1 is kept, and NaN, 0 and negatives become 1 |
| PokemonRoutes.PageLimit | server/routes/pokemon.js:60 | the limit lies in 1..50; NaN or 0 gives 20, a negative value gives 1, a value above 50 gives 50, and any other value is kept |
| PokemonRoutes.DecimalPaging | server/routes/pokemon.js:55-60 | a page and a limit given as decimals are taken at their value, with the limit capped at 50 |
| PokemonRoutes.PageIds | server/routes/pokemon.js:65-99 | `LIMIT l OFFSET (p - 1) * l`: the ordered ids from position `(p - 1) * l` on, in order, at most `l` of them, and none past the end |
| PokemonRoutes.Rows | server/routes/pokemon.js:92 | one `{id, name, sprite, attack}` row per id, in order, with that id's columns |
| PokemonRoutes.FilteredIds | server/routes/pokemon.js:73-76 | distinct ids, listed exactly when the id has a `pokemon` row and a stats row and, for a non-empty type, a row with that type |
| PokemonRoutes.OrderedIds | server/routes/pokemon.js:81-96 | a permutation of the filtered ids, sorted by the selected key |
| PokemonRoutes.OrderedBySortKey | server/routes/pokemon.js:81-85 | `name_asc`, `name_desc`, `atk_asc` and `atk_desc` order by name or attack, ascending or descending; any other value orders by strictly ascending id |
| PokemonRoutes.PageQualifies | server/routes/pokemon.js:65-99 | a page holds at most `l` ids, and each has stats and matches the type filter |
| PokemonRoutes.PagesDisjoint | server/routes/pokemon.js:65-97 | two different pages share no id |
| PokemonRoutes.ConsecutivePages | server/routes/pokemon.js:65-97 | page `p` followed by page `p + 1` is the run of `2l` ids that starts at page `p`'s offset |
| PokemonRoutes.PagesCover | server/routes/pokemon.js:65-97 | every id the listing may show is on some page |
| PokemonRoutes.TotalCountsQualifying | server/routes/pokemon.js:104-119 | the total is the number of joined ids that meet the filter, whatever the page and limit |
| PokemonRoutes.SortOrder | server/routes/pokemon.js:81-85 | each of `name_asc`, `name_desc`, `atk_asc` and `atk_desc` selects its own order, and `p.id ASC` is chosen exactly when the sort value is none of them |
| PokemonRoutes.RunPage | server/routes/pokemon.js:89-98 | the page statement returns at most `LIMIT` rows, each a stored id with stats whose bound WHERE clause holds |
| PokemonRoutes.RunCount | server/routes/pokemon.js:104-119 | `COUNT(*)` over the join with stats is the number of distinct stored ids with stats whose bound WHERE clause holds |
| PokemonRoutes.BuildListQuery | server/routes/pokemon.js:67-99 | one placeholder per WHERE fragment, then `LIMIT` and `OFFSET`; the bound WHERE clause holds exactly when the type filter matches; the ORDER BY is the one the sort value selects |
| PokemonRoutes.BuiltQueryMeaning | server/routes/pokemon.js:90-119 | the page query returns the rows of the specified page, and the count query with the last two parameters dropped counts the filtered ids |
| PokemonRoutes.ListPokemon | server/routes/pokemon.js:30-121 | a truthy `search` answers the search and ignores the other parameters; otherwise the answer is the page's rows, the normalised page and limit, and the filtered total |
| PokemonRoutes.GetPokemon | server/routes/pokemon.js:131-158 | NaN or 0 gives 400 with no fetch and no write; otherwise the store is hydrated with one fetch exactly when the id was not stored; a cache error gives 500; no row after hydration gives 404; otherwise the details |
| Favorites.MarkFavorite | server/routes/favorites.js:19-30 | NaN or 0 gives 400 and leaves the ledger unchanged; otherwise `{ ok: true }` and INSERT IGNORE of the id |
| Favorites.UnmarkFavorite | server/routes/favorites.js:35-44 | the id is removed and the answer is `{ ok: true }`; NaN is refused by the database, so the answer is 500 with the ledger unchanged |
| Favorites.MarkThenUnmark | server/routes/favorites.js:19-44 | marking a raw id that parses to a non-zero number that is not yet a favorite, then unmarking the same raw id, restores the original store, whether or not the id has a `pokemon` row |
| Favorites.FavoriteIds | server/routes/favorites.js:55-62 | the join yields each favorite that has a `pokemon` row, and only those, once each |
| Favorites.FavoritesListed | server/routes/favorites.js:55-62 | the listed ids are in ascending order of name, and there are as many as favorites with a `pokemon` row |
| Favorites.ListFavorites | server/routes/favorites.js:55-64 | one `{id, name, sprite}` row for each listed id, in order |
| Profile.TypeNames | server/routes/profile.js:36 | the `type` column: one entry per row, the row's type at the same position |
| Profile.FavoriteTypes | server/routes/profile.js:36-38 | a type occurs exactly when some favorite has a type row with it |
| Profile.FavoriteTypeCount | server/routes/profile.js:36-39 | `COUNT(*)` of a type's group is the number of favorites' type rows that carry that type |
| Profile.MostFrequentOf | server/routes/profile.js:39-41 | the chosen candidate's count is at least that of every other candidate |
| Profile.TopType | server/routes/profile.js:35-47 | the first group's type, or null when it is missing or empty: a top type is non-empty and is a favorite's type; there is none when no favorite has a type row |
| Profile.TopTypeIsMostFrequent | server/routes/profile.js:35-47 | a top type is non-empty, some favorite has it, and no type occurs more often; when every favorite type name is non-empty, there is a top type exactly when some favorite has a type row |
| Profile.GetProfileStats | server/routes/profile.js:20-49 | `favorites` is the number of favorite rows, `seen` is the number of `pokemon` rows, and `topType` is the most frequent favorite type, or null |
| Seed.Statements | server/scripts/seed.js:14 | every statement is a non-empty trimmed piece of the schema split on `;`, and every such piece is kept |
| Seed.JoinedStatements | server/scripts/seed.js:14 | pieces without `;`, joined by `;`, are read back as their trimmed forms, in order, with the empty ones dropped |
| Seed.StatementsRoundTrip | server/scripts/seed.js:14 | pieces without `;`, joined by `;` with or without a final `;`, are read back as their trimmed forms, in order, with the empty ones dropped |
| Seed.StatementsReadBack | server/scripts/seed.js:14 | non-empty statements without `;` and without white space at either end, joined by `;` with or without a final `;`, are read back exactly |
| Seed.RunStatements | server/scripts/seed.js:14-16 | every statement is sent once, in order |
| Seed.ApplySchema | server/scripts/seed.js:13-16 | the statements sent are those of the schema text |
| Seed.ReplaceFacts | server/scripts/seed.js:19-35 | the facts become exactly the ten fixed strings, and nothing else changes |
| Seed.LastFor | server/scripts/seed.js:38-57 | the last fetched record that carries the id: it is one of the records, carries the id, and no later record carries it; none exactly when no record carries the id |
| Seed.SeedStep | server/scripts/seed.js:39-57 | one turn never touches favorites or facts, and adds the record's id to the stored ids |
| Seed.SeedAll | server/scripts/seed.js:38-59 | the loop never touches favorites or facts, removes no stored id, and every fetched record's id ends up stored |
| Seed.SeedStepAt | server/scripts/seed.js:39-57 | one turn: a skipped id changes nothing; otherwise the record's id gets its row, its stats and exactly its types, and every other id is untouched |
| Seed.SeedAllAt | server/scripts/seed.js:38-59 | after the loop each id holds what the last record carrying it says, or what it held before |
| Seed.SeedAllForeignKeys | server/scripts/seed.js:45-57 | the loop keeps the foreign keys of the store |
| Seed.SeedIdempotent | server/scripts/seed.js:38-59 | running the loop again with the same answers gives the same `pokemon` and stats rows, favorites, facts, and the same types for every id |
| Seed.SeededReadsBack | server/scripts/seed.js:45-57 | a seeded id reads back through the detail route as normalised, and the cache treats it as a hit |
| Seed.Upstream151 | server/scripts/seed.js:38-39 | the upstream's answers for ids 1 to 151, in ascending order |
| Seed.SeedPokemon | server/scripts/seed.js:37-59 | the loop leaves the store as the fold over ids 1..151 of the upstream's answers, with exactly 151 fetches |
| Seed.SeedOne | server/scripts/seed.js:39-57 | one turn of the loop leaves the store as the specified turn does |
| Seed.Run | server/scripts/seed.js:10-67 | the schema statements are issued, the facts are replaced, then the loop runs |

## Left out

- I/O is not modelled: console logging, the catch-all 500 answers for database failures other than a duplicate key, and `process.exit` in the seeder.
- The effect of the schema statements on the store is not modelled. `server/db/schema.sql` is not part of this model; the foreign keys of stats, types and favorites on `pokemon` follow the documented data model.
- Network failures of the upstream and malformed JSON are not modelled. A thrown `fetch` or `res.json()`, a payload without `sprites.other`, and a null `base_stat` cannot occur in the model: the upstream is an oracle that returns a well-formed payload or a non-ok response.
- JavaScript number precision is not modelled: ids, page and limit are unbounded integers.
- `parseInt` is applied to text only. A repeated query parameter, which Express passes as an array, is not modelled.
- Text.Lower: lower-cases ASCII letters only. `toLowerCase()` and MySQL's `LOWER` and collations also fold other letters.
- PokemonRoutes.SearchRanked: name order is code-point order, where MySQL uses its collation. The source leaves `%` and `_` in a search term unescaped, so MySQL treats them as wildcards; the model matches them literally.
- PokemonRoutes.OrderedBySortKey: the order among rows with equal sort keys is not stated, since SQL leaves it unspecified. The model sorts stably over ascending ids, so every page request sees the same order.
- PokemonRoutes.PagesDisjoint, PokemonRoutes.ConsecutivePages and PokemonRoutes.PagesCover: these assume that rows with equal sort keys come in the same order on every page request. MySQL does not promise that for `ORDER BY ps.attack` or `ORDER BY p.name` with ties, so across real requests a tied row may show on two pages or on none.
- Profile.TopTypeIsMostFrequent: among types with equal counts, the model picks the first one among the favorites' type rows in stored row order. SQL leaves that choice open, so the lemma only states that the winner's count is maximal.
- Type equality in the type filter is exact. MySQL's collation may also match other case variants.
- Profile.FavoriteTypeCount and Profile.TopType: types are grouped by exact equality. MySQL's `GROUP BY` under a case-insensitive collation merges case variants of a type into one group.
- Concurrency is not modelled. Two hydrations racing on one id are not modelled; the model is sequential and claims no race tolerance.
- Favorites.UnmarkFavorite: the 500 for a NaN id relies on the driver writing NaN into the SQL text, which the database then rejects.
- `server/routes/facts.js`, `server/app.js`, `server/db/pool.js` and the front end `public/js/main.js` are not part of this model.
