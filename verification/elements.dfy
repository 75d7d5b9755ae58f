/**
  The shape of one catalogue record (`ChemicalElement`) and the closed set of
  its field names, with the accessor that stands for `element[key]`.
 */
module Elements {

  import opened Values

  /** The keys of `ChemicalElement`, the only keys a `Partial<ChemicalElement>`
      query may carry. */
  datatype Field =
    | Name | Symbol | AtomicNumber | AtomicWeight | Period | Group | PhaseAtSTP
    | MeltingPoint | BoilingPoint | Electronegativity | Density | IsRadioactive
    | ElectronConfiguration | Category

  /** One record. Every field holds a JavaScript value: the declared types
      (number, string, boolean, or the 'unknown' sentinel) are not enforced on
      the literal data, which also holds `null` and `undefined`; an optional
      field that is left out reads as `Undef`. */
  datatype ChemicalElement = ChemicalElement(
    name: Val,
    symbol: Val,
    atomicNumber: Val,
    atomicWeight: Val,
    period: Val,
    group: Val,
    phaseAtSTP: Val,
    meltingPoint: Val,
    boilingPoint: Val,
    electronegativity: Val,
    density: Val,
    isRadioactive: Val,
    electronConfiguration: Val,
    category: Val)

  /** `element[key]`: the value a record holds under a field name. */
  function Get(e: ChemicalElement, f: Field): Val
  {
    match f
    case Name => e.name
    case Symbol => e.symbol
    case AtomicNumber => e.atomicNumber
    case AtomicWeight => e.atomicWeight
    case Period => e.period
    case Group => e.group
    case PhaseAtSTP => e.phaseAtSTP
    case MeltingPoint => e.meltingPoint
    case BoilingPoint => e.boilingPoint
    case Electronegativity => e.electronegativity
    case Density => e.density
    case IsRadioactive => e.isRadioactive
    case ElectronConfiguration => e.electronConfiguration
    case Category => e.category
  }

  /** The field names cover the whole record: two records that agree on every
      key are the same record, so a query over field names can observe all of it. */
  lemma FieldsDetermineRecord(a: ChemicalElement, b: ChemicalElement)
    requires forall f: Field :: Get(a, f) == Get(b, f)
    ensures a == b
  {
    assert Get(a, Name) == Get(b, Name) && Get(a, Symbol) == Get(b, Symbol);
    assert Get(a, AtomicNumber) == Get(b, AtomicNumber);
    assert Get(a, AtomicWeight) == Get(b, AtomicWeight);
    assert Get(a, Period) == Get(b, Period) && Get(a, Group) == Get(b, Group);
    assert Get(a, PhaseAtSTP) == Get(b, PhaseAtSTP);
    assert Get(a, MeltingPoint) == Get(b, MeltingPoint);
    assert Get(a, BoilingPoint) == Get(b, BoilingPoint);
    assert Get(a, Electronegativity) == Get(b, Electronegativity);
    assert Get(a, Density) == Get(b, Density);
    assert Get(a, IsRadioactive) == Get(b, IsRadioactive);
    assert Get(a, ElectronConfiguration) == Get(b, ElectronConfiguration);
    assert Get(a, Category) == Get(b, Category);
  }
}
