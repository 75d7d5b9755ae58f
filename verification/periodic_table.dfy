/**
  An excerpt of `periodicTable`: six of its records, kept in the Map's
  insertion order (hydrogen, oganesson, helium, nihonium, neon, copernicium),
  chosen because between them they hold real values, literal `null`,
  `undefined` and the 'unknown' sentinel. The examples below state what the
  query helpers answer on it.
 */
module PeriodicTable {

  import opened Wrappers
  import opened Values
  import opened Elements
  import opened Query
  import opened QueryProperties

  function Real(x: real): Val
  {
    Num(Finite(x))
  }

  const hydrogen := ChemicalElement(
    Str("Hydrogen"), Str("H"), Real(1.0), Real(1.008), Real(1.0), Real(1.0), Str("gas"),
    Real(14.01), Real(20.28), Real(2.20), Real(0.00008988), Bool(false),
    Str("1s1"), Str("nonmetal"))

  const helium := ChemicalElement(
    Str("Helium"), Str("He"), Real(2.0), Real(4.0026), Real(1.0), Real(18.0), Str("gas"),
    Real(0.95), Real(4.22), Undef, Real(0.0001786), Bool(false),
    Str("1s2"), Str("noble gas"))

  const nihonium := ChemicalElement(
    Str("Nihonium"), Str("Nh"), Real(113.0), Real(286.0), Real(7.0), Real(13.0), Str("solid"),
    Null, Null, Null, Null, Bool(true),
    Str("[Rn] 5f14 6d10 7s2 7p1"), Str("post-transition metal"))

  const neon := ChemicalElement(
    Str("Neon"), Str("Ne"), Real(10.0), Real(20.1797), Real(2.0), Real(18.0), Str("gas"),
    Real(24.56), Real(27.07), Null, Real(0.0008999), Bool(false),
    Str("1s2 2s2 2p6"), Str("noble gas"))

  const copernicium := ChemicalElement(
    Str("Copernicium"), Str("Cn"), Real(112.0), Real(285.0), Real(7.0), Real(12.0), Unknown,
    Unknown, Unknown, Unknown, Unknown, Bool(true),
    Str("[Rn] 5f14 6d10 7s2 7p1"), Str("post-transition metal"))

  const oganesson := ChemicalElement(
    Str("Oganesson"), Str("Og"), Real(118.0), Real(294.0), Real(7.0), Real(18.0), Unknown,
    Real(330.0), Real(500.0), Real(1.0), Real(4.9), Bool(true),
    Str("[Rn] 5f14 6d10 7s2 7p6"), Str("noble gas"))

  const Excerpt: Catalogue := [hydrogen, oganesson, helium] + [nihonium, neon, copernicium]

  function Keep(e: ChemicalElement, query: PartialRecord): Catalogue
  {
    if MatchesAll(e, query) then [e] else []
  }

  /** Search over three records, unrolled record by record. */
  lemma SearchThree(a: ChemicalElement, b: ChemicalElement, c: ChemicalElement, query: PartialRecord)
    ensures SearchElement([a, b, c], query) == Keep(a, query) + Keep(b, query) + Keep(c, query)
  {
    SearchCons(c, [], query);
    assert [c] == [c] + [];
    assert SearchElement([c], query) == Keep(c, query);
    SearchCons(b, [c], query);
    assert [b, c] == [b] + [c];
    assert SearchElement([b, c], query) == Keep(b, query) + Keep(c, query);
    SearchCons(a, [b, c], query);
    assert [a, b, c] == [a] + [b, c];
  }

  /** Search over the excerpt, unrolled record by record. */
  lemma SearchExcerpt(query: PartialRecord)
    ensures SearchElement(Excerpt, query)
         == Keep(hydrogen, query) + Keep(oganesson, query) + Keep(helium, query)
          + Keep(nihonium, query) + Keep(neon, query) + Keep(copernicium, query)
  {
    SearchThree(hydrogen, oganesson, helium, query);
    SearchThree(nihonium, neon, copernicium, query);
    SearchAppend([hydrogen, oganesson, helium], [nihonium, neon, copernicium], query);
  }

  /** Lookup finds a symbol exactly and case-sensitively, and answers
      `undefined` for a symbol no record has. */
  lemma LookupExamples()
    ensures Element(Excerpt, "He") == Some(helium)
    ensures Element(Excerpt, "he") == None
    ensures Element(Excerpt, "Xx") == None
  {
    assert UniqueSymbols(Excerpt);
    ElementRoundTrip(Excerpt, helium);
    assert forall i :: 0 <= i < |Excerpt| ==> Excerpt[i].symbol != Str("he");
    assert forall i :: 0 <= i < |Excerpt| ==> Excerpt[i].symbol != Str("Xx");
  }

  /** Every record of the excerpt is found again by its own symbol. */
  lemma ExcerptRoundTrip()
    ensures forall e :: e in Excerpt ==> e.symbol.Str? && Element(Excerpt, e.symbol.s) == Some(e)
  {
    assert UniqueSymbols(Excerpt);
    forall e | e in Excerpt
      ensures e.symbol.Str? && Element(Excerpt, e.symbol.s) == Some(e)
    {
      ElementRoundTrip(Excerpt, e);
    }
  }

  /** The noble gases of the excerpt, in catalogue order (oganesson comes
      before helium because it was inserted first). */
  lemma NobleGasExample()
    ensures SearchElement(Excerpt, [Entry(Category, Str("noble gas"))]) == [oganesson, helium, neon]
  {
    SearchExcerpt([Entry(Category, Str("noble gas"))]);
  }

  lemma RadioactiveExample()
    ensures SearchElement(Excerpt, [Entry(IsRadioactive, Bool(true))]) == [oganesson, nihonium, copernicium]
  {
    var q := [Entry(IsRadioactive, Bool(true))];
    assert Keep(hydrogen, q) == [] && Keep(oganesson, q) == [oganesson] && Keep(helium, q) == [];
    assert Keep(nihonium, q) == [nihonium] && Keep(neon, q) == [] && Keep(copernicium, q) == [copernicium];
    SearchExcerpt(q);
  }

  lemma PeriodSevenExample()
    ensures SearchElement([oganesson, nihonium, copernicium], [Entry(Period, Real(7.0))])
         == [oganesson, nihonium, copernicium]
  {
    SearchThree(oganesson, nihonium, copernicium, [Entry(Period, Real(7.0))]);
  }

  /** Two entries at once: radioactive AND period 7. */
  lemma RadioactivePeriodSevenExample()
    ensures SearchElement(Excerpt, [Entry(IsRadioactive, Bool(true)), Entry(Period, Real(7.0))])
         == [oganesson, nihonium, copernicium]
  {
    var radioactive := [Entry(IsRadioactive, Bool(true))];
    var periodSeven := [Entry(Period, Real(7.0))];
    RadioactiveExample();
    PeriodSevenExample();
    SearchComposes(Excerpt, radioactive, periodSeven);
    assert radioactive + periodSeven == [Entry(IsRadioactive, Bool(true)), Entry(Period, Real(7.0))];
  }

  lemma NullElectronegativityExample()
    ensures SearchElement(Excerpt, [Entry(Electronegativity, Null)]) == [nihonium, neon]
  {
    SearchExcerpt([Entry(Electronegativity, Null)]);
  }

  lemma UndefinedElectronegativityExample()
    ensures SearchElement(Excerpt, [Entry(Electronegativity, Undef)]) == [helium]
  {
    SearchExcerpt([Entry(Electronegativity, Undef)]);
  }

  /** Neon and nihonium hold literal `null` electronegativity, helium holds
      `undefined`, copernicium holds 'unknown': each query value selects
      differently, and 'unknown' selects every record. */
  lemma MissingElectronegativityExample()
    ensures SearchElement(Excerpt, [Entry(Electronegativity, Null)]) == [nihonium, neon]
    ensures SearchElement(Excerpt, [Entry(Electronegativity, Undef)]) == [helium]
    ensures SearchElement(Excerpt, [Entry(Electronegativity, Unknown)]) == Excerpt
  {
    NullElectronegativityExample();
    UndefinedElectronegativityExample();
    WildcardQueryKeepsCatalogue(Excerpt, Electronegativity);
  }

  /** Only oganesson and copernicium hold phase 'unknown', yet a query on phase
      'unknown' returns all six records. */
  lemma PhaseWildcardExample()
    ensures SearchElement(Excerpt, [Entry(PhaseAtSTP, Unknown)]) == Excerpt
    ensures SearchElement(Excerpt, [Entry(PhaseAtSTP, Str("gas"))]) == [hydrogen, helium, neon]
  {
    WildcardQueryKeepsCatalogue(Excerpt, PhaseAtSTP);
    SearchExcerpt([Entry(PhaseAtSTP, Str("gas"))]);
  }
}
