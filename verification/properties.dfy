/**
  What the two query helpers promise, stated over an arbitrary catalogue:
  search is an exact, order-preserving filter; entries combine by AND, in any
  order; the 'unknown' wildcard never excludes; more entries only narrow; and
  lookup by symbol is the head of the corresponding search.
 */
module QueryProperties {

  import opened Wrappers
  import opened Values
  import opened Elements
  import opened Sequences
  import opened Query

  /** Positions in a catalogue's tail, renumbered as positions in the whole. */
  function Shift(idx: seq<nat>): seq<nat>
  {
    seq(|idx|, j requires 0 <= j < |idx| => idx[j] + 1)
  }

  /** Reference for search: the positions of the matching records, listed once
      each in ascending order. */
  function MatchingIndices(catalogue: Catalogue, query: PartialRecord): (idx: seq<nat>)
    ensures StrictlyIncreasing(idx) && InBounds(idx, |catalogue|)
    ensures forall i :: 0 <= i < |catalogue| ==> (i in idx <==> MatchesAll(catalogue[i], query))
  {
    if |catalogue| == 0 then []
    else
      var inner := MatchingIndices(catalogue[1..], query);
      var rest := Shift(inner);
      assert forall i :: 1 <= i < |catalogue| ==> (i in rest <==> i - 1 in inner) by {
        forall i | 1 <= i < |catalogue|
          ensures i in rest <==> i - 1 in inner
        {
          if i - 1 in inner {
            var j :| 0 <= j < |inner| && inner[j] == i - 1;
            assert rest[j] == i;
          }
        }
      }
      assert forall i :: 1 <= i < |catalogue| ==> catalogue[i] == catalogue[1..][i - 1];
      if MatchesAll(catalogue[0], query) then [0] + rest else rest
  }

  /** Search keeps exactly the records at the matching positions, in catalogue
      order: no record is dropped, repeated or reordered. */
  lemma {:induction false} SearchSelectsMatchingIndices(catalogue: Catalogue, query: PartialRecord)
    ensures SearchElement(catalogue, query) == Select(catalogue, MatchingIndices(catalogue, query))
  {
    if |catalogue| > 0 {
      var tail := catalogue[1..];
      SearchSelectsMatchingIndices(tail, query);
      var inner := MatchingIndices(tail, query);
      SelectShifted(catalogue, inner);
      if MatchesAll(catalogue[0], query) {
        SelectFirst(catalogue, Shift(inner));
      }
    }
  }

  /** Selecting shifted positions from a catalogue selects from its tail. */
  lemma SelectShifted(s: Catalogue, idx: seq<nat>)
    requires |s| > 0 && InBounds(idx, |s| - 1)
    ensures InBounds(Shift(idx), |s|)
    ensures Select(s, Shift(idx)) == Select(s[1..], idx)
  {
  }

  /** Selecting position 0 first puts the first record in front. */
  lemma SelectFirst(s: Catalogue, idx: seq<nat>)
    requires |s| > 0 && InBounds(idx, |s|)
    ensures InBounds([0] + idx, |s|)
    ensures Select(s, [0] + idx) == [s[0]] + Select(s, idx)
  {
    assert forall j :: 0 < j <= |idx| ==> ([0] + idx)[j] == idx[j - 1];
  }

  /** Search decides the first record and then searches the rest. */
  lemma SearchCons(e: ChemicalElement, rest: Catalogue, query: PartialRecord)
    ensures SearchElement([e] + rest, query)
         == (if MatchesAll(e, query) then [e] else []) + SearchElement(rest, query)
  {
    assert ([e] + rest)[1..] == rest;
  }

  /** Search distributes over joining catalogues: each part is filtered on its
      own and the results are joined in the same order. */
  lemma {:induction false} SearchAppend(c1: Catalogue, c2: Catalogue, query: PartialRecord)
    ensures SearchElement(c1 + c2, query) == SearchElement(c1, query) + SearchElement(c2, query)
  {
    if |c1| == 0 {
      assert c1 + c2 == c2;
    } else {
      assert (c1 + c2)[1..] == c1[1..] + c2;
      SearchAppend(c1[1..], c2, query);
    }
  }

  /** The search result is a subsequence of the catalogue. */
  lemma SearchIsSubsequence(catalogue: Catalogue, query: PartialRecord)
    ensures IsSubsequence(SearchElement(catalogue, query), catalogue)
  {
    SearchSelectsMatchingIndices(catalogue, query);
    var idx := MatchingIndices(catalogue, query);
    assert StrictlyIncreasing(idx) && InBounds(idx, |catalogue|);
  }

  /** An empty query returns the whole catalogue, in order. */
  lemma {:induction false} EmptyQueryKeepsCatalogue(catalogue: Catalogue)
    ensures SearchElement(catalogue, []) == catalogue
  {
    if |catalogue| > 0 {
      EmptyQueryKeepsCatalogue(catalogue[1..]);
    }
  }

  /** Two queries that every catalogue record passes or fails alike give the
      same search result. */
  lemma {:induction false} SearchCongruent(catalogue: Catalogue, q1: PartialRecord, q2: PartialRecord)
    requires forall e :: e in catalogue ==> (MatchesAll(e, q1) <==> MatchesAll(e, q2))
    ensures SearchElement(catalogue, q1) == SearchElement(catalogue, q2)
  {
    if |catalogue| > 0 {
      SearchCongruent(catalogue[1..], q1, q2);
    }
  }

  /** AND across entries: passing a joined query is passing both halves. */
  lemma MatchesAllConcat(e: ChemicalElement, q1: PartialRecord, q2: PartialRecord)
    ensures MatchesAll(e, q1 + q2) <==> MatchesAll(e, q1) && MatchesAll(e, q2)
  {
    var q := q1 + q2;
    assert forall i :: 0 <= i < |q1| ==> q[i] == q1[i];
    assert forall i :: 0 <= i < |q2| ==> q[|q1| + i] == q2[i];
  }

  /** Searching with a joined query is searching the first half's result with
      the second half. */
  lemma {:induction false} SearchComposes(catalogue: Catalogue, q1: PartialRecord, q2: PartialRecord)
    ensures SearchElement(catalogue, q1 + q2) == SearchElement(SearchElement(catalogue, q1), q2)
  {
    if |catalogue| > 0 {
      MatchesAllConcat(catalogue[0], q1, q2);
      SearchComposes(catalogue[1..], q1, q2);
    }
  }

  /** Monotonicity: adding entries to a query can only narrow the result, and
      the narrowed result is a subsequence of the old one. */
  lemma AddingEntriesNarrows(catalogue: Catalogue, query: PartialRecord, more: PartialRecord)
    ensures IsSubsequence(SearchElement(catalogue, query + more), SearchElement(catalogue, query))
    ensures |SearchElement(catalogue, query + more)| <= |SearchElement(catalogue, query)|
  {
    SearchComposes(catalogue, query, more);
    SearchIsSubsequence(SearchElement(catalogue, query), more);
  }

  /** Only which entries a query holds matters, not their order or repetition,
      so an object's entries may be listed in any order. */
  lemma SearchIgnoresEntryOrder(catalogue: Catalogue, q1: PartialRecord, q2: PartialRecord)
    requires forall x :: x in q1 <==> x in q2
    ensures SearchElement(catalogue, q1) == SearchElement(catalogue, q2)
  {
    forall e | e in catalogue
      ensures MatchesAll(e, q1) <==> MatchesAll(e, q2)
    {
      if MatchesAll(e, q1) {
        forall i | 0 <= i < |q2| ensures Satisfies(e, q2[i]) {
          assert q2[i] in q1;
        }
      }
      if MatchesAll(e, q2) {
        forall i | 0 <= i < |q1| ensures Satisfies(e, q1[i]) {
          assert q1[i] in q2;
        }
      }
    }
    SearchCongruent(catalogue, q1, q2);
  }

  /** An entry whose value is 'unknown' never excludes a record, whatever the
      record holds in that field: the query behaves as if it were absent. */
  lemma WildcardEntryIgnored(catalogue: Catalogue, before: PartialRecord, f: Field, after: PartialRecord)
    ensures SearchElement(catalogue, before + [Entry(f, Unknown)] + after)
         == SearchElement(catalogue, before + after)
  {
    forall e | e in catalogue
      ensures MatchesAll(e, before + [Entry(f, Unknown)] + after) <==> MatchesAll(e, before + after)
    {
      MatchesAllConcat(e, before + [Entry(f, Unknown)], after);
      MatchesAllConcat(e, before, [Entry(f, Unknown)]);
      MatchesAllConcat(e, before, after);
    }
    SearchCongruent(catalogue, before + [Entry(f, Unknown)] + after, before + after);
  }

  /** A query holding only an 'unknown' entry returns the whole catalogue,
      not only the records whose field holds 'unknown'. */
  lemma {:induction false} WildcardQueryKeepsCatalogue(catalogue: Catalogue, f: Field)
    ensures SearchElement(catalogue, [Entry(f, Unknown)]) == catalogue
  {
    WildcardEntryIgnored(catalogue, [], f, []);
    assert [] + [Entry(f, Unknown)] + [] == [Entry(f, Unknown)];
    EmptyQueryKeepsCatalogue(catalogue);
  }

  /** `null`, `undefined` and 'unknown' are three different query values: `null`
      selects only literal `null`, `undefined` only `undefined` (or an absent
      optional field), and 'unknown' selects everything. */
  lemma MissingMarkersMatchDistinctly(e: ChemicalElement, f: Field)
    ensures Satisfies(e, Entry(f, Null)) <==> Get(e, f) == Null
    ensures Satisfies(e, Entry(f, Undef)) <==> Get(e, f) == Undef
    ensures Satisfies(e, Entry(f, Unknown))
  {
  }

  /** A NaN query value matches nothing, since NaN is not `===` to itself. */
  lemma NaNEntryExcludesAll(catalogue: Catalogue, f: Field)
    ensures SearchElement(catalogue, [Entry(f, Num(NaN))]) == []
  {
  }

  /** No two records of the catalogue share a symbol. */
  predicate UniqueSymbols(catalogue: Catalogue)
  {
    forall i, j :: 0 <= i < j < |catalogue| ==> catalogue[i].symbol != catalogue[j].symbol
  }

  /** Round trip: in a catalogue with unique symbols, looking up a record's own
      symbol yields that very record. */
  lemma ElementRoundTrip(catalogue: Catalogue, e: ChemicalElement)
    requires UniqueSymbols(catalogue)
    requires e in catalogue && e.symbol.Str?
    ensures Element(catalogue, e.symbol.s) == Some(e)
  {
  }

  /** Lookup by symbol is the first result of searching on that symbol, except
      for the symbol 'unknown': lookup compares it literally, while search
      treats it as a wildcard and returns the whole catalogue. */
  lemma {:induction false} ElementIsFirstSearchResult(catalogue: Catalogue, symbol: string)
    requires symbol != "unknown"
    ensures var found := SearchElement(catalogue, [Entry(Symbol, Str(symbol))]);
      Element(catalogue, symbol) == if found == [] then None else Some(found[0])
  {
    if |catalogue| > 0 {
      ElementIsFirstSearchResult(catalogue[1..], symbol);
    }
  }

  /** For the symbol 'unknown' the two helpers part ways: search treats it as
      a wildcard, lookup compares it literally. */
  lemma SymbolWildcardDiffersFromLookup(catalogue: Catalogue)
    ensures SearchElement(catalogue, [Entry(Symbol, Str("unknown"))]) == catalogue
    ensures Element(catalogue, "unknown").Some? ==> Element(catalogue, "unknown").value.symbol == Unknown
  {
    WildcardQueryKeepsCatalogue(catalogue, Symbol);
  }
}
