/**
  The two query helpers over the element catalogue: lookup by symbol
  (`element`) and partial-match search (`searchElement`).
 */
module Query {

  import opened Wrappers
  import opened Values
  import opened Elements

  /** `Array.from(periodicTable.values())`: the records in the Map's insertion
      order, which is not atomic-number order. */
  type Catalogue = seq<ChemicalElement>

  /** One `[key, value]` pair of `Object.entries(query)`. */
  datatype Entry = Entry(key: Field, value: Val)

  /** `Object.entries` of a `Partial<ChemicalElement>` query. */
  type PartialRecord = seq<Entry>

  /** `element(symbol)`: the first record, in catalogue order, whose symbol is
      strictly equal to `symbol` (case-sensitive, no normalisation); `None`
      stands for `undefined`. */
  function Element(catalogue: Catalogue, symbol: string): (r: Option<ChemicalElement>)
    ensures r.Some? ==> r.value.symbol == Str(symbol)
    ensures r.Some? ==>
      exists i :: 0 <= i < |catalogue| && catalogue[i] == r.value &&
        forall j :: 0 <= j < i ==> catalogue[j].symbol != Str(symbol)
    ensures r.None? <==> forall i :: 0 <= i < |catalogue| ==> catalogue[i].symbol != Str(symbol)
  {
    if |catalogue| == 0 then None
    else if StrictEquals(catalogue[0].symbol, Str(symbol)) then Some(catalogue[0])
    else
      var r := Element(catalogue[1..], symbol);
      assert forall i :: 1 <= i < |catalogue| ==> catalogue[i] == catalogue[1..][i - 1];
      r
  }

  /** The test of one query entry: a value strictly equal to the sentinel
      'unknown' accepts every record; any other value must be strictly equal
      to the record's field of that name. */
  predicate Satisfies(e: ChemicalElement, entry: Entry)
    ensures Satisfies(e, entry) <==>
      entry.value == Unknown || (Get(e, entry.key) == entry.value && entry.value != Num(NaN))
  {
    if StrictEquals(entry.value, Unknown) then true
    else StrictEquals(Get(e, entry.key), entry.value)
  }

  /** `Object.entries(query).every(...)`: the record passes every entry. */
  predicate MatchesAll(e: ChemicalElement, query: PartialRecord)
    ensures MatchesAll(e, query) <==> forall i :: 0 <= i < |query| ==> Satisfies(e, query[i])
  {
    if |query| == 0 then true
    else
      var rest := MatchesAll(e, query[1..]);
      assert forall i :: 1 <= i < |query| ==> query[i] == query[1..][i - 1];
      Satisfies(e, query[0]) && rest
  }

  /** `searchElement(query)`: the catalogue filtered, order kept, to the records
      that pass every entry of the query. */
  function SearchElement(catalogue: Catalogue, query: PartialRecord): (r: Catalogue)
    ensures |r| <= |catalogue|
    ensures forall e :: e in r <==> e in catalogue && MatchesAll(e, query)
  {
    if |catalogue| == 0 then []
    else if MatchesAll(catalogue[0], query) then [catalogue[0]] + SearchElement(catalogue[1..], query)
    else SearchElement(catalogue[1..], query)
  }
}
