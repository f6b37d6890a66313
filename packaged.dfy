/**
 * The packaged copy of convmag (src/convmag/convmag_functions.py): its factor table, the base
 * units it yields, and what the engine and its laws give for this table.
 *
 * The source writes the table as one dictionary literal in four blank-line separated groups;
 * here each group is a table of its own and the dictionary is their union, which lets every
 * fact about the table be checked one group at a time.
 */
module Packaged {
  import opened Wrappers
  import opened Constants
  import opened Engine
  import opened Laws

  /** Magnetic field and volume magnetisation: T, G, Oe, A/m, emu/cm^3, erg/Oecm^3. */
  const FieldTable: Table := map[
    ("T", "G") := 1e4,
    ("T", "Oe") := 1e4,
    ("A/m", "T") := Mu0,
    ("A/m", "G") := 1e4 * Mu0,
    ("G", "Oe") := 1.0,
    ("A/m", "Oe") := 1e4 * Mu0,
    ("emu/cm^3", "T") := 1e3 * Mu0,
    ("erg/Oecm^3", "A/m") := 1e3
  ]

  /** Mass magnetisation. */
  const MassTable: Table := map[
    ("emu/g", "Am^2/kg") := 1.0
  ]

  /** Energy density (energy product). */
  const EnergyTable: Table := map[
    ("J/m^3", "GOe") := 1e8 * Mu0,
    ("J/m^3", "erg/cm^3") := 1e1,
    ("erg/cm^3", "GOe") := 1e7 * Mu0
  ]

  /** Magnetic moment. */
  const MomentTable: Table := map[
    ("Am^2", "emu") := 1e3,
    ("Am^2", "erg/G") := 1e3,
    ("Am^2", "erg/Oe") := 1e3,
    ("emu", "erg/G") := 1.0,
    ("muB", "Am^2") := MuB,
    ("muB", "emu") := 1e3 * MuB
  ]

  /** The factor table of the packaged copy: 1 src = factor dst for each stored (src, dst). */
  const Convmag: Table := FieldTable + MassTable + EnergyTable + MomentTable

  const FieldUnits: set<string> := {"T", "G", "Oe", "A/m", "emu/cm^3", "erg/Oecm^3"}
  const MassUnits: set<string> := {"emu/g", "Am^2/kg"}
  const EnergyUnits: set<string> := {"J/m^3", "GOe", "erg/cm^3"}
  const MomentUnits: set<string> := {"Am^2", "emu", "erg/G", "erg/Oe", "muB"}

  /** The sixteen base units. */
  const BaseUnits: set<string> := FieldUnits + MassUnits + EnergyUnits + MomentUnits

  /*
   * A size for every base unit: in Oe for the field group, in G*Oe for the energy group and in
   * emu for the moment group. Every entry of the table is the ratio of two of these sizes.
   */
  const FieldSize: map<string, real> := map[
    "Oe" := 1.0, "G" := 1.0, "T" := 1e4, "A/m" := 1e4 * Mu0,
    "emu/cm^3" := 1e7 * Mu0, "erg/Oecm^3" := 1e7 * Mu0
  ]
  const MassSize: map<string, real> := map["emu/g" := 1.0, "Am^2/kg" := 1.0]
  const EnergySize: map<string, real> := map["GOe" := 1.0, "erg/cm^3" := 1e7 * Mu0, "J/m^3" := 1e8 * Mu0]
  const MomentSize: map<string, real> := map[
    "emu" := 1.0, "erg/G" := 1.0, "erg/Oe" := 1.0, "Am^2" := 1e3, "muB" := 1e3 * MuB
  ]
  const Size: map<string, real> := FieldSize + MassSize + EnergySize + MomentSize

  /** The base units of the field group are exactly its six units. */
  lemma UnitsOfField()
    ensures Units(FieldTable) == FieldUnits
  {
    assert forall p | p in FieldTable :: p.0 in FieldUnits && p.1 in FieldUnits;
    assert forall u | u in FieldUnits :: u in Units(FieldTable) by {
      assert ("T", "G") in FieldTable && ("T", "Oe") in FieldTable;
      assert ("A/m", "T") in FieldTable && ("emu/cm^3", "T") in FieldTable;
      assert ("erg/Oecm^3", "A/m") in FieldTable;
    }
  }

  /** The base units of the mass group are exactly its two units. */
  lemma UnitsOfMass()
    ensures Units(MassTable) == MassUnits
  {
    assert ("emu/g", "Am^2/kg") in MassTable;
  }

  /** The base units of the energy group are exactly its three units. */
  lemma UnitsOfEnergy()
    ensures Units(EnergyTable) == EnergyUnits
  {
    assert forall p | p in EnergyTable :: p.0 in EnergyUnits && p.1 in EnergyUnits;
    assert ("J/m^3", "GOe") in EnergyTable && ("J/m^3", "erg/cm^3") in EnergyTable;
  }

  /** The base units of the moment group are exactly its five units. */
  lemma UnitsOfMoment()
    ensures Units(MomentTable) == MomentUnits
  {
    assert forall p | p in MomentTable :: p.0 in MomentUnits && p.1 in MomentUnits;
    assert forall u | u in MomentUnits :: u in Units(MomentTable) by {
      assert ("Am^2", "emu") in MomentTable && ("Am^2", "erg/G") in MomentTable;
      assert ("Am^2", "erg/Oe") in MomentTable && ("muB", "Am^2") in MomentTable;
    }
  }

  /** The six field units are distinct and none is a unit of another group. */
  lemma FieldUnitsApart()
    ensures |FieldUnits| == 6
    ensures FieldUnits !! MassUnits && FieldUnits !! EnergyUnits && FieldUnits !! MomentUnits
  {
  }

  /** The units of the three smaller groups are distinct and no two groups share one. */
  lemma OtherUnitsApart()
    ensures |MassUnits| == 2 && |EnergyUnits| == 3 && |MomentUnits| == 5
    ensures MassUnits !! EnergyUnits && MassUnits !! MomentUnits && EnergyUnits !! MomentUnits
  {
  }

  /** The Bohr magnetons per formula unit of the interactive mode are not a base unit. */
  lemma PerFormulaUnitNotBase()
    ensures "muB/fu" !in BaseUnits
  {
  }

  /** The unit set the source builds from the keys is exactly the sixteen base units. */
  lemma UnitsOfConvmag()
    ensures Units(Convmag) == BaseUnits
    ensures |Units(Convmag)| == 16
    ensures "muB/fu" !in Units(Convmag)
  {
    UnitsOfField();
    UnitsOfMass();
    UnitsOfEnergy();
    UnitsOfMoment();
    UnitsOfFour(FieldTable, MassTable, EnergyTable, MomentTable);
    FieldUnitsApart();
    OtherUnitsApart();
    CardOfFour(FieldUnits, MassUnits, EnergyUnits, MomentUnits);
    PerFormulaUnitNotBase();
  }

  /** The field group stores each pair of distinct units once. */
  lemma FieldPairsOneWay()
    ensures forall p | p in FieldTable :: p.0 != p.1 && (p.1, p.0) !in FieldTable
  {
  }

  /** Every factor of the field group is positive. */
  lemma FieldFactorsPositive()
    ensures forall p | p in FieldTable :: FieldTable[p] > 0.0
  {
  }

  /** No unit of the field group is empty or contains the key separator. */
  lemma FieldUnitsSeparable()
    ensures forall u | u in FieldUnits :: u != "" && '_' !in u
  {
  }

  /** The field group has the shape the engine's laws need. */
  lemma FieldWellFormed()
    ensures WellFormed(FieldTable)
  {
    UnitsOfField();
    FieldPairsOneWay();
    FieldFactorsPositive();
    FieldUnitsSeparable();
  }

  /** The mass group stores each pair of distinct units once. */
  lemma MassPairsOneWay()
    ensures forall p | p in MassTable :: p.0 != p.1 && (p.1, p.0) !in MassTable
  {
  }

  /** Every factor of the mass group is positive. */
  lemma MassFactorsPositive()
    ensures forall p | p in MassTable :: MassTable[p] > 0.0
  {
  }

  /** No unit of the mass group is empty or contains the key separator. */
  lemma MassUnitsSeparable()
    ensures forall u | u in MassUnits :: u != "" && '_' !in u
  {
  }

  /** The mass group has the shape the engine's laws need. */
  lemma MassWellFormed()
    ensures WellFormed(MassTable)
  {
    UnitsOfMass();
    MassPairsOneWay();
    MassFactorsPositive();
    MassUnitsSeparable();
  }

  /** The energy group stores each pair of distinct units once. */
  lemma EnergyPairsOneWay()
    ensures forall p | p in EnergyTable :: p.0 != p.1 && (p.1, p.0) !in EnergyTable
  {
  }

  /** Every factor of the energy group is positive. */
  lemma EnergyFactorsPositive()
    ensures forall p | p in EnergyTable :: EnergyTable[p] > 0.0
  {
  }

  /** No unit of the energy group is empty or contains the key separator. */
  lemma EnergyUnitsSeparable()
    ensures forall u | u in EnergyUnits :: u != "" && '_' !in u
  {
  }

  /** The energy group has the shape the engine's laws need. */
  lemma EnergyWellFormed()
    ensures WellFormed(EnergyTable)
  {
    UnitsOfEnergy();
    EnergyPairsOneWay();
    EnergyFactorsPositive();
    EnergyUnitsSeparable();
  }

  /** The moment group stores each pair of distinct units once. */
  lemma MomentPairsOneWay()
    ensures forall p | p in MomentTable :: p.0 != p.1 && (p.1, p.0) !in MomentTable
  {
  }

  /** Every factor of the moment group is positive. */
  lemma MomentFactorsPositive()
    ensures forall p | p in MomentTable :: MomentTable[p] > 0.0
  {
  }

  /** No unit of the moment group is empty or contains the key separator. */
  lemma MomentUnitsSeparable()
    ensures forall u | u in MomentUnits :: u != "" && '_' !in u
  {
  }

  /** The moment group has the shape the engine's laws need. */
  lemma MomentWellFormed()
    ensures WellFormed(MomentTable)
  {
    UnitsOfMoment();
    MomentPairsOneWay();
    MomentFactorsPositive();
    MomentUnitsSeparable();
  }

  /** The packaged table has the shape the engine's laws need. */
  lemma ConvmagWellFormed()
    ensures WellFormed(Convmag)
  {
    FieldWellFormed();
    MassWellFormed();
    EnergyWellFormed();
    MomentWellFormed();
    UnitsOfField();
    UnitsOfMass();
    UnitsOfEnergy();
    UnitsOfMoment();
    FieldUnitsApart();
    OtherUnitsApart();
    WellFormedFour(FieldTable, MassTable, EnergyTable, MomentTable);
  }

  /** The field sizes are given for exactly the field units, and are positive. */
  lemma FieldSizes()
    ensures FieldSize.Keys == FieldUnits
    ensures forall u | u in FieldUnits :: FieldSize[u] > 0.0
  {
  }

  /** Each field entry is the ratio of the sizes of its two units. */
  lemma FieldRatios()
    ensures forall p | p in FieldTable :: p.0 in FieldSize && p.1 in FieldSize && FieldTable[p] * FieldSize[p.1] == FieldSize[p.0]
  {
  }

  /** The field group agrees with the field sizes. */
  lemma FieldScales()
    ensures Scales(FieldTable, FieldSize)
  {
    UnitsOfField();
    FieldSizes();
    FieldRatios();
  }

  /** The mass sizes are given for exactly the mass units, and are positive. */
  lemma MassSizes()
    ensures MassSize.Keys == MassUnits
    ensures forall u | u in MassUnits :: MassSize[u] > 0.0
  {
  }

  /** Each mass entry is the ratio of the sizes of its two units. */
  lemma MassRatios()
    ensures forall p | p in MassTable :: p.0 in MassSize && p.1 in MassSize && MassTable[p] * MassSize[p.1] == MassSize[p.0]
  {
  }

  /** The mass group agrees with the mass sizes. */
  lemma MassScales()
    ensures Scales(MassTable, MassSize)
  {
    UnitsOfMass();
    MassSizes();
    MassRatios();
  }

  /** The energy sizes are given for exactly the energy units, and are positive. */
  lemma EnergySizes()
    ensures EnergySize.Keys == EnergyUnits
    ensures forall u | u in EnergyUnits :: EnergySize[u] > 0.0
  {
  }

  /** Each energy entry is the ratio of the sizes of its two units. */
  lemma EnergyRatios()
    ensures forall p | p in EnergyTable :: p.0 in EnergySize && p.1 in EnergySize && EnergyTable[p] * EnergySize[p.1] == EnergySize[p.0]
  {
  }

  /** The energy group agrees with the energy sizes. */
  lemma EnergyScales()
    ensures Scales(EnergyTable, EnergySize)
  {
    UnitsOfEnergy();
    EnergySizes();
    EnergyRatios();
  }

  /** The moment sizes are given for exactly the moment units, and are positive. */
  lemma MomentSizes()
    ensures MomentSize.Keys == MomentUnits
    ensures forall u | u in MomentUnits :: MomentSize[u] > 0.0
  {
  }

  /** Each moment entry is the ratio of the sizes of its two units. */
  lemma MomentRatios()
    ensures forall p | p in MomentTable :: p.0 in MomentSize && p.1 in MomentSize && MomentTable[p] * MomentSize[p.1] == MomentSize[p.0]
  {
  }

  /** The moment group agrees with the moment sizes. */
  lemma MomentScales()
    ensures Scales(MomentTable, MomentSize)
  {
    UnitsOfMoment();
    MomentSizes();
    MomentRatios();
  }

  /** No group's size map names a unit of another group. */
  lemma SizesApart()
    ensures Units(FieldTable) !! MassSize.Keys && Units(FieldTable) !! EnergySize.Keys
    ensures Units(FieldTable) !! MomentSize.Keys && Units(MassTable) !! EnergySize.Keys
    ensures Units(MassTable) !! MomentSize.Keys && Units(EnergyTable) !! MomentSize.Keys
  {
    UnitsOfField();
    UnitsOfMass();
    UnitsOfEnergy();
    FieldSizes();
    MassSizes();
    EnergySizes();
    MomentSizes();
    FieldUnitsApart();
    OtherUnitsApart();
  }

  /** Every entry of the packaged table agrees with one size per base unit. */
  lemma ConvmagScales()
    ensures Scales(Convmag, Size)
  {
    FieldScales();
    MassScales();
    EnergyScales();
    MomentScales();
    SizesApart();
    ScalesFour(FieldTable, MassTable, EnergyTable, MomentTable, FieldSize, MassSize, EnergySize, MomentSize);
  }

  /** Converting x from a unit string to another and back gives x again, for the packaged table. */
  lemma ConvmagRoundTrip(x: real, startunit: string, endunit: string)
    requires Value(ConvertUnit(Convmag, x, startunit, endunit, false)).Some?
    ensures var y := Value(ConvertUnit(Convmag, x, startunit, endunit, false)).value;
            Value(ConvertUnit(Convmag, y, endunit, startunit, false)) == Some(x)
  {
    ConvmagWellFormed();
    RoundTrip(Convmag, x, startunit, endunit);
  }

  /** Going through an intermediate unit gives what the direct conversion gives, for the packaged table. */
  lemma ConvmagChain(x: real, a: string, b: string, c: string)
    requires Value(ConvertUnit(Convmag, x, a, b, false)).Some?
    requires Value(ConvertUnit(Convmag, Value(ConvertUnit(Convmag, x, a, b, false)).value, b, c, false)).Some?
    requires Value(ConvertUnit(Convmag, x, a, c, false)).Some?
    ensures Value(ConvertUnit(Convmag, Value(ConvertUnit(Convmag, x, a, b, false)).value, b, c, false))
            == Value(ConvertUnit(Convmag, x, a, c, false))
  {
    ConvmagScales();
    ChainedConversion(Convmag, Size, x, a, b, c);
  }

  /** A field entry is read from the merged table unchanged: no later group uses its start unit. */
  lemma FieldEntry(p: (string, string))
    requires p in FieldTable
    ensures p in Convmag && Convmag[p] == FieldTable[p]
  {
    UnitsOfField();
    UnitsOfMass();
    UnitsOfEnergy();
    UnitsOfMoment();
    FieldUnitsApart();
    assert p.0 in Units(FieldTable);
    EntryOfUnion(FieldTable, MassTable, p);
    EntryOfUnion(FieldTable + MassTable, EnergyTable, p);
    EntryOfUnion(FieldTable + MassTable + EnergyTable, MomentTable, p);
  }

  /** An energy entry is read from the merged table unchanged: the moment group does not use its start unit. */
  lemma EnergyEntry(p: (string, string))
    requires p in EnergyTable
    ensures p in Convmag && Convmag[p] == EnergyTable[p]
  {
    UnitsOfEnergy();
    UnitsOfMoment();
    OtherUnitsApart();
    assert p.0 in Units(EnergyTable);
    EntryOfUnion(FieldTable + MassTable + EnergyTable, MomentTable, p);
  }

  /** Converting between two base units of the packaged table that an entry relates forward. */
  lemma ConvmagForward(x: real, s: string, e: string)
    requires (s, e) in Convmag
    ensures ConvertUnit(Convmag, x, s, e, false) == Ok(Conversion(Some(Scaled(x, 1.0, Convmag[(s, e)], 1.0)), []))
  {
    ConvmagWellFormed();
    ForwardBetweenBaseUnits(Convmag, x, s, e);
  }

  /** Converting between two base units of the packaged table that an entry relates backward. */
  lemma ConvmagReverse(x: real, s: string, e: string)
    requires (e, s) in Convmag
    ensures Convmag[(e, s)] > 0.0
    ensures ConvertUnit(Convmag, x, s, e, false) == Ok(Conversion(Some(Scaled(x, 1.0, 1.0 / Convmag[(e, s)], 1.0)), []))
  {
    ConvmagWellFormed();
    ReverseBetweenBaseUnits(Convmag, x, s, e);
  }

  /** The resolver sees exactly the sixteen base units, one unit at a time. */
  lemma BaseUnit(u: string)
    ensures u in Units(Convmag) <==> u in BaseUnits
  {
    UnitsOfConvmag();
  }

  /** A prefixed unit of the packaged table converts to a base unit that the table relates to its base backward. */
  lemma ConvmagPrefixedReverse(x: real, p: Prefix, s: string, e: string)
    requires [p] + s !in BaseUnits
    requires (e, s) in Convmag
    ensures Convmag[(e, s)] > 0.0
    ensures ConvertUnit(Convmag, x, [p] + s, e, false)
            == Ok(Conversion(Some(Scaled(x, PrefixScale(p), 1.0 / Convmag[(e, s)], 1.0)), []))
  {
    ConvmagWellFormed();
    BaseUnit([p] + s);
    PrefixedReverse(Convmag, x, p, s, e);
  }

  /** A base unit of the packaged table and the same unit with a prefix give no result. */
  lemma ConvmagPrefixedNotAvailable(x: real, u: string, p: Prefix)
    requires u in BaseUnits && [p] + u !in BaseUnits
    ensures ConvertUnit(Convmag, x, u, [p] + u, false)
            == Ok(Conversion(None, [ConversionNotAvailable(u, [p] + u)]))
  {
    ConvmagWellFormed();
    BaseUnit(u);
    BaseUnit([p] + u);
    SameBaseUnitNotAvailable(Convmag, x, u, p, false);
  }

  /** Two base units of the packaged table that no entry relates give no result. */
  lemma ConvmagNotAvailable(x: real, a: string, b: string)
    requires a in BaseUnits && b in BaseUnits && !Related(Convmag, a, b)
    ensures ConvertUnit(Convmag, x, a, b, false) == Ok(Conversion(None, [ConversionNotAvailable(a, b)]))
  {
    BaseUnit(a);
    BaseUnit(b);
    UnavailableConversion(Convmag, x, a, b, Whole(a), Whole(b), false);
  }

  /** A start unit that is neither a base unit nor a prefixed one is reported and nothing is computed. */
  lemma ConvmagUnknownStart(x: real, s: string, e: string)
    requires s !in BaseUnits && s != [] && !(s[0] in Prefixes && s[1..] in BaseUnits)
    requires e in BaseUnits
    ensures ConvertUnit(Convmag, x, s, e, false) == Ok(Conversion(None, [StartUnitNotRecognised]))
  {
    ConvmagWellFormed();
    BaseUnit(s);
    BaseUnit(s[1..]);
    BaseUnit(e);
    ResolvesNot(Units(Convmag), s);
    UnrecognisedUnit(Convmag, x, s, e, NotRecognised, Whole(e), false);
    StartErrorOnly(Whole(e));
  }

  /** A field unit and a moment unit are never related by the packaged table. */
  lemma FieldAndMomentUnrelated(a: string, b: string)
    requires a in FieldUnits && b in MomentUnits
    ensures !Related(Convmag, a, b)
  {
    UnitsOfField();
    UnitsOfMass();
    UnitsOfEnergy();
    UnitsOfMoment();
    FieldUnitsApart();
    OtherUnitsApart();
    UnitsOfUnion(FieldTable, MassTable);
    UnitsOfUnion(FieldTable + MassTable, EnergyTable);
    UnrelatedAcross(FieldTable + MassTable + EnergyTable, MomentTable, a, b);
  }
}
