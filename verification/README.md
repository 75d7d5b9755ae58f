# Chemical element catalogue: lookup and partial-match search

This project models the query core of `src/elements.ts` in Dafny. The file has three parts:

- a catalogue of element records (`periodicTable`), which is a `Map` from atomic number to `ChemicalElement`;
- `element(symbol)`, which returns the first record whose symbol is strictly equal to the argument, or `undefined`;
- `searchElement(query)`, which keeps, in catalogue order, the records that pass every `[key, value]` entry of a partial record. An entry whose value is the string `'unknown'` is a wildcard.

Modules:

- `Values` (values.dfy) holds the JavaScript values a field can hold and strict equality (`===`) on them. The values are `undefined`, `null`, numbers, strings and booleans. Numbers are finite reals, the two infinities and NaN, and NaN is not `===` to itself. The `'unknown'` sentinel is the string `"unknown"` itself, because `===` cannot tell the sentinel from that string.
- `Elements` (elements.dfy) holds the record shape and a closed set of field names. The accessor `Get` stands for `element[key]`.
- `Query` (query.dfy) holds `Element` and `SearchElement`, plus the per-entry test `Satisfies` and the `every` over entries, `MatchesAll`. The catalogue is the sequence of the Map's values in insertion order. A query is the sequence of its `Object.entries`.
- `QueryProperties` (properties.dfy) states what the two helpers promise for any catalogue:
  - the search is an exact, order-preserving filter;
  - entries combine by AND, in any order;
  - more entries only narrow the result;
  - a wildcard entry changes nothing;
  - `null`, `undefined` and `'unknown'` select differently;
  - lookup is the head of the matching search.
- `PeriodicTable` (periodic_table.dfy) holds six literal records in their insertion order (hydrogen, oganesson, helium, nihonium, neon, copernicium), with example queries over them.

Three points follow the code literally:

- Iteration order is the Map's insertion order, not atomic-number order.
- The sentinel is the string `'unknown'`, not a separate tag. A field that holds the string `'unknown'` is therefore the same value as the sentinel.
- An entry whose value is `'unknown'` is skipped before any field is read.

## Model

| member | source | states |
|---|---|---|
| Values.StrictEquals | src/elements.ts:2169-2170 | `===` holds exactly between identical values, except NaN, which equals nothing |
| Elements.FieldsDetermineRecord | src/elements.ts:2-19 | two records that agree on every field name of the record shape are the same record, so the field names cover the whole record |
| Query.Element | src/elements.ts:2162-2164 | a found record has exactly the given symbol and no earlier record in catalogue order has it; nothing is found iff no record has that symbol |
| Query.Satisfies | src/elements.ts:2169-2171 | a record passes one entry iff the entry's value is the sentinel `'unknown'`, or the record's field of that name is the same value as the entry's and that value is not NaN |
| Query.MatchesAll | src/elements.ts:2168-2172 | a record passes a query iff it satisfies every entry (AND across entries; the empty query is passed by every record) |
| Query.SearchElement | src/elements.ts:2166-2174 | the result is no longer than the catalogue, and a record is in it iff it is in the catalogue and passes every entry |
| QueryProperties.MatchingIndices | src/elements.ts:2167-2172 | the positions of the passing records, each listed once and in ascending order |
| QueryProperties.SearchSelectsMatchingIndices | src/elements.ts:2166-2174 | the search result is exactly the catalogue's records at the passing positions, in catalogue order: none dropped, repeated or reordered |
| QueryProperties.SearchCons | src/elements.ts:2167 | the cons equation of the filter (the first record is kept iff it passes, then the rest is filtered), which the unrolled excerpt examples use |
| QueryProperties.SearchAppend | src/elements.ts:2167 | searching a joined catalogue joins the searches of its parts, in the same order |
| QueryProperties.SearchIsSubsequence | src/elements.ts:2166-2167 | every search result is a subsequence of the catalogue |
| QueryProperties.EmptyQueryKeepsCatalogue | src/elements.ts:2168 | an empty query returns the whole catalogue in order |
| QueryProperties.SearchCongruent | src/elements.ts:2167-2168 | two queries that every catalogue record passes or fails alike give the same result |
| QueryProperties.MatchesAllConcat | src/elements.ts:2168-2172 | passing a joined query is the same as passing both of its halves |
| QueryProperties.SearchComposes | src/elements.ts:2166-2172 | searching with `q1 + q2` is searching the result of `q1` with `q2` |
| QueryProperties.AddingEntriesNarrows | src/elements.ts:2168-2172 | adding entries to a query yields a subsequence of the old result, never a longer one |
| QueryProperties.SearchIgnoresEntryOrder | src/elements.ts:2168 | the result depends only on which entries the query holds, not on their order or on repetition |
| QueryProperties.WildcardEntryIgnored | src/elements.ts:2169 | inserting an entry with value `'unknown'` anywhere in a query never changes the result, whatever the records hold in that field |
| QueryProperties.WildcardQueryKeepsCatalogue | src/elements.ts:2169 | a query holding one `'unknown'` entry returns the whole catalogue, not only the records that hold `'unknown'` |
| QueryProperties.MissingMarkersMatchDistinctly | src/elements.ts:2169-2171 | a `null` entry accepts only a literal `null` field, an `undefined` entry only an `undefined` field, and an `'unknown'` entry accepts every record |
| QueryProperties.NaNEntryExcludesAll | src/elements.ts:2170 | an entry whose value is NaN matches no record |
| QueryProperties.ElementRoundTrip | src/elements.ts:2162-2164 | in a catalogue with unique symbols, looking up a record's own symbol yields that record |
| QueryProperties.ElementIsFirstSearchResult | src/elements.ts:2162-2174 | for any symbol other than `'unknown'`, lookup returns the first record of the search on that symbol, and nothing iff that search is empty |
| QueryProperties.SymbolWildcardDiffersFromLookup | src/elements.ts:2162-2170 | a search on symbol `'unknown'` returns the whole catalogue, while lookup of `'unknown'` can only return a record whose symbol is literally `'unknown'` |
| PeriodicTable.SearchThree | src/elements.ts:2167 | search over three records keeps each record iff it passes the query, in order |
| PeriodicTable.SearchExcerpt | src/elements.ts:2041-2142 | search over the six-record excerpt, in insertion order, keeps each record iff it passes the query |
| PeriodicTable.LookupExamples | src/elements.ts:2162-2164 | lookup of `He` finds helium; lookups of `he` (wrong case) and `Xx` find nothing |
| PeriodicTable.ExcerptRoundTrip | src/elements.ts:2162-2164 | every record of the excerpt is found again by its own symbol |
| PeriodicTable.NobleGasExample | src/elements.ts:2041-2114 | a search on category `noble gas` returns oganesson, helium and neon, in insertion order (oganesson is inserted before helium) |
| PeriodicTable.RadioactiveExample | src/elements.ts:2166-2174 | radioactive records of the excerpt: oganesson, nihonium, copernicium |
| PeriodicTable.PeriodSevenExample | src/elements.ts:2166-2174 | all of oganesson, nihonium and copernicium are in period 7 |
| PeriodicTable.RadioactivePeriodSevenExample | src/elements.ts:2168-2172 | a two-entry query (radioactive AND period 7) keeps only the records that pass both entries |
| PeriodicTable.NullElectronegativityExample | src/elements.ts:903-906 | a `null` electronegativity query returns nihonium and neon, the records that hold literal `null` |
| PeriodicTable.UndefinedElectronegativityExample | src/elements.ts:100 | an `undefined` electronegativity query returns helium only, not the `null` records |
| PeriodicTable.MissingElectronegativityExample | src/elements.ts:1282 | `null`, `undefined` and `'unknown'` electronegativity queries give three different results; `'unknown'` gives all records |
| PeriodicTable.PhaseWildcardExample | src/elements.ts:1792 | a query on phase `'unknown'` returns all six records, although only copernicium and oganesson hold that phase; a query on phase `gas` returns hydrogen, helium and neon |

## Left out

- The `Map` construction of `periodicTable` (src/elements.ts:2040-2160) is not modelled. Its key hashing and duplicate-key overwriting do not occur in this data. The catalogue is modelled as the Map's values in insertion order.
- Only six of the 118 literal records are transcribed, as an excerpt for the examples. Every property is proved for an arbitrary catalogue. Whether the physical data is correct is not a property of the code.
- The uniqueness of atomic numbers and symbols in the literal data is not proved for the full table. `ElementRoundTrip` takes unique symbols as a precondition, and the excerpt is shown to have them.
- Floating-point arithmetic is not modelled. Numbers are only ever compared with `===`, so a finite number is a real. `+0` and `-0` are one value, as they are under `===`.
- Query keys outside the record shape are not modelled. The field names form a closed set, as `Partial<ChemicalElement>` enforces statically.
- The declared field types are not enforced on records or query values. Every field holds an arbitrary JavaScript value, which covers the `null` and `undefined` that the data actually holds.
- Purity and repeatability of both helpers need no lemma. They are Dafny functions, so equal arguments give equal results, and the catalogue is a value that no operation can change.
- Object and array field values (compared by reference under `===`) are not modelled. No field of the record shape holds one.
