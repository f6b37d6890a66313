/**
 * The legacy single-file copy of convmag (convmag.py). Its convert_unit, unit-cell volume and
 * moment/polarisation functions are the same code as the packaged copy's, so the engine of
 * module Engine and the formulas of module UnitCell model them too; what differs is the table.
 *
 * Two groups differ from the packaged table: the field group stores A/m -> Oe as 1e3 mu_0
 * (the packaged copy: 1e4 mu_0), and the energy group stores GOe -> erg/cm^3 as 1e3 mu_0 where
 * the packaged copy stores erg/cm^3 -> GOe as 1e7 mu_0. Both legacy entries contradict the
 * entries beside them; the lemmas at the end of this module exhibit that.
 */
module Legacy {
  import opened Wrappers
  import opened Constants
  import opened Engine
  import opened Laws
  import Packaged

  /** The legacy field group: as the packaged one, except A/m -> Oe. */
  const FieldTable: Table := map[
    ("T", "G") := 1e4,
    ("T", "Oe") := 1e4,
    ("A/m", "T") := Mu0,
    ("A/m", "G") := 1e4 * Mu0,
    ("G", "Oe") := 1.0,
    ("A/m", "Oe") := 1e3 * Mu0,
    ("emu/cm^3", "T") := 1e3 * Mu0,
    ("erg/Oecm^3", "A/m") := 1e3
  ]

  /** The legacy energy group: GOe -> erg/cm^3 instead of erg/cm^3 -> GOe. */
  const EnergyTable: Table := map[
    ("J/m^3", "GOe") := 1e8 * Mu0,
    ("J/m^3", "erg/cm^3") := 1e1,
    ("GOe", "erg/cm^3") := 1e3 * Mu0
  ]

  /** The factor table of the legacy copy; its mass and moment groups are the packaged ones. */
  const Convmag: Table := FieldTable + Packaged.MassTable + EnergyTable + Packaged.MomentTable

  /** The legacy field group differs from the packaged one in the A/m -> Oe factor alone. */
  lemma FieldDifference()
    ensures FieldTable == Packaged.FieldTable[("A/m", "Oe") := 1e3 * Mu0]
  {
  }

  /** The legacy energy group stores the third pair the other way round, with another factor. */
  lemma EnergyDifference()
    ensures EnergyTable
            == (Packaged.EnergyTable - {("erg/cm^3", "GOe")})[("GOe", "erg/cm^3") := 1e3 * Mu0]
  {
  }

  /** The legacy field group has the same six units as the packaged one. */
  lemma UnitsOfField()
    ensures Units(FieldTable) == Packaged.FieldUnits
  {
    assert forall p | p in FieldTable :: p.0 in Packaged.FieldUnits && p.1 in Packaged.FieldUnits;
    assert forall u | u in Packaged.FieldUnits :: u in Units(FieldTable) by {
      assert ("T", "G") in FieldTable && ("T", "Oe") in FieldTable;
      assert ("A/m", "T") in FieldTable && ("emu/cm^3", "T") in FieldTable;
      assert ("erg/Oecm^3", "A/m") in FieldTable;
    }
  }

  /** The legacy energy group has the same three units as the packaged one. */
  lemma UnitsOfEnergy()
    ensures Units(EnergyTable) == Packaged.EnergyUnits
  {
    assert forall p | p in EnergyTable :: p.0 in Packaged.EnergyUnits && p.1 in Packaged.EnergyUnits;
    assert ("J/m^3", "GOe") in EnergyTable && ("J/m^3", "erg/cm^3") in EnergyTable;
  }

  /** Both copies recognise exactly the same sixteen base units. */
  lemma SameUnits()
    ensures Units(Convmag) == Units(Packaged.Convmag) == Packaged.BaseUnits
  {
    UnitsOfField();
    UnitsOfEnergy();
    Packaged.UnitsOfMass();
    Packaged.UnitsOfMoment();
    UnitsOfFour(FieldTable, Packaged.MassTable, EnergyTable, Packaged.MomentTable);
    Packaged.UnitsOfConvmag();
  }

  /** The legacy field group stores each pair of distinct units once. */
  lemma FieldPairsOneWay()
    ensures forall p | p in FieldTable :: p.0 != p.1 && (p.1, p.0) !in FieldTable
  {
  }

  /** Every factor of the legacy field group is positive. */
  lemma FieldFactorsPositive()
    ensures forall p | p in FieldTable :: FieldTable[p] > 0.0
  {
  }

  /** The legacy energy group stores each pair of distinct units once. */
  lemma EnergyPairsOneWay()
    ensures forall p | p in EnergyTable :: p.0 != p.1 && (p.1, p.0) !in EnergyTable
  {
  }

  /** Every factor of the legacy energy group is positive. */
  lemma EnergyFactorsPositive()
    ensures forall p | p in EnergyTable :: EnergyTable[p] > 0.0
  {
  }

  /** The legacy table has the shape the engine's laws need, like the packaged one. */
  lemma ConvmagWellFormed()
    ensures WellFormed(Convmag)
  {
    UnitsOfField();
    UnitsOfEnergy();
    FieldPairsOneWay();
    FieldFactorsPositive();
    EnergyPairsOneWay();
    EnergyFactorsPositive();
    Packaged.FieldUnitsSeparable();
    Packaged.EnergyUnitsSeparable();
    assert WellFormed(FieldTable) && WellFormed(EnergyTable);
    Packaged.MassWellFormed();
    Packaged.MomentWellFormed();
    Packaged.UnitsOfMass();
    Packaged.UnitsOfMoment();
    Packaged.FieldUnitsApart();
    Packaged.OtherUnitsApart();
    WellFormedFour(FieldTable, Packaged.MassTable, EnergyTable, Packaged.MomentTable);
  }

  /** A legacy field entry is read from the merged table unchanged. */
  lemma FieldEntry(p: (string, string))
    requires p in FieldTable
    ensures p in Convmag && Convmag[p] == FieldTable[p]
  {
    UnitsOfField();
    UnitsOfEnergy();
    Packaged.UnitsOfMass();
    Packaged.UnitsOfMoment();
    Packaged.FieldUnitsApart();
    assert p.0 in Units(FieldTable);
    EntryOfUnion(FieldTable, Packaged.MassTable, p);
    EntryOfUnion(FieldTable + Packaged.MassTable, EnergyTable, p);
    EntryOfUnion(FieldTable + Packaged.MassTable + EnergyTable, Packaged.MomentTable, p);
  }

  /** A legacy energy entry is read from the merged table unchanged. */
  lemma EnergyEntry(p: (string, string))
    requires p in EnergyTable
    ensures p in Convmag && Convmag[p] == EnergyTable[p]
  {
    UnitsOfEnergy();
    Packaged.UnitsOfMoment();
    Packaged.OtherUnitsApart();
    assert p.0 in Units(EnergyTable);
    EntryOfUnion(FieldTable + Packaged.MassTable + EnergyTable, Packaged.MomentTable, p);
  }

  /** Converting between two base units of the legacy table that an entry relates forward. */
  lemma ConvmagForward(x: real, s: string, e: string)
    requires (s, e) in Convmag
    ensures ConvertUnit(Convmag, x, s, e, false) == Ok(Conversion(Some(Scaled(x, 1.0, Convmag[(s, e)], 1.0)), []))
  {
    ConvmagWellFormed();
    ForwardBetweenBaseUnits(Convmag, x, s, e);
  }

  /** Converting between two base units of the legacy table that an entry relates backward. */
  lemma ConvmagReverse(x: real, s: string, e: string)
    requires (e, s) in Convmag
    ensures Convmag[(e, s)] > 0.0
    ensures ConvertUnit(Convmag, x, s, e, false) == Ok(Conversion(Some(Scaled(x, 1.0, 1.0 / Convmag[(e, s)], 1.0)), []))
  {
    ConvmagWellFormed();
    ReverseBetweenBaseUnits(Convmag, x, s, e);
  }

  /** Converting x from a unit string to another and back still gives x again with the legacy table. */
  lemma ConvmagRoundTrip(x: real, startunit: string, endunit: string)
    requires Value(ConvertUnit(Convmag, x, startunit, endunit, false)).Some?
    ensures var y := Value(ConvertUnit(Convmag, x, startunit, endunit, false)).value;
            Value(ConvertUnit(Convmag, y, endunit, startunit, false)) == Some(x)
  {
    ConvmagWellFormed();
    RoundTrip(Convmag, x, startunit, endunit);
  }

  /** In the legacy copy, G*Oe converts to erg/cm^3 by 1e3 mu_0, and erg/cm^3 to G*Oe by its inverse. */
  lemma LegacyEnergyProduct(x: real)
    ensures ConvertUnit(Convmag, x, "GOe", "erg/cm^3", false) == Ok(Conversion(Some(Scaled(x, 1.0, 1e3 * Mu0, 1.0)), []))
    ensures ConvertUnit(Convmag, x, "erg/cm^3", "GOe", false)
            == Ok(Conversion(Some(Scaled(x, 1.0, 1.0 / (1e3 * Mu0), 1.0)), []))
  {
    EnergyEntry(("GOe", "erg/cm^3"));
    ConvmagForward(x, "GOe", "erg/cm^3");
    ConvmagReverse(x, "erg/cm^3", "GOe");
  }

  /** x J/m^3 is x * 1e8 mu_0 G*Oe in both copies. */
  lemma JouleToGaussOersted(x: real)
    ensures ConvertUnit(Convmag, x, "J/m^3", "GOe", false) == Ok(Conversion(Some(Scaled(x, 1.0, 1e8 * Mu0, 1.0)), []))
  {
    EnergyEntry(("J/m^3", "GOe"));
    ConvmagForward(x, "J/m^3", "GOe");
  }

  /** x J/m^3 is 10 x erg/cm^3 in both copies. */
  lemma JouleToErg(x: real)
    ensures ConvertUnit(Convmag, x, "J/m^3", "erg/cm^3", false) == Ok(Conversion(Some(Scaled(x, 1.0, 1e1, 1.0)), []))
  {
    EnergyEntry(("J/m^3", "erg/cm^3"));
    ConvmagForward(x, "J/m^3", "erg/cm^3");
  }

  /** The scales of two chained and one direct conversion, reduced to their factors. */
  lemma ChainDiffers(x: real, f: real, g: real, h: real)
    requires x != 0.0 && f * g != h
    ensures Scaled(Scaled(x, 1.0, f, 1.0), 1.0, g, 1.0) != Scaled(x, 1.0, h, 1.0)
  {
    assert Scaled(Scaled(x, 1.0, f, 1.0), 1.0, g, 1.0) == x * (f * g);
    assert Scaled(x, 1.0, h, 1.0) == x * h;
  }

  /** The factors the legacy chains multiply differ from the direct entries. */
  lemma ChainFactors()
    ensures (1e4 * Mu0) * 1.0 != 1e3 * Mu0
    ensures (1e8 * Mu0) * (1e3 * Mu0) != 1e1
  {
  }

  /** x A/m is x * 1e4 mu_0 G in both copies. */
  lemma AmpPerMetreToGauss(x: real)
    ensures ConvertUnit(Convmag, x, "A/m", "G", false) == Ok(Conversion(Some(Scaled(x, 1.0, 1e4 * Mu0, 1.0)), []))
  {
    FieldEntry(("A/m", "G"));
    ConvmagForward(x, "A/m", "G");
  }

  /** x G is x Oe in both copies. */
  lemma GaussToOersted(x: real)
    ensures ConvertUnit(Convmag, x, "G", "Oe", false) == Ok(Conversion(Some(Scaled(x, 1.0, 1.0, 1.0)), []))
  {
    FieldEntry(("G", "Oe"));
    ConvmagForward(x, "G", "Oe");
  }

  /** x A/m is x * 1e3 mu_0 Oe in the legacy copy (1e4 mu_0 in the packaged one). */
  lemma AmpPerMetreToOersted(x: real)
    ensures ConvertUnit(Convmag, x, "A/m", "Oe", false) == Ok(Conversion(Some(Scaled(x, 1.0, 1e3 * Mu0, 1.0)), []))
  {
    FieldEntry(("A/m", "Oe"));
    ConvmagForward(x, "A/m", "Oe");
  }

  /** What the three field conversions of the chain A/m -> G -> Oe and of A/m -> Oe give. */
  lemma FieldChainValues(x: real)
    ensures ConvertUnit(Convmag, x, "A/m", "G", false) == Ok(Conversion(Some(Scaled(x, 1.0, 1e4 * Mu0, 1.0)), []))
    ensures ConvertUnit(Convmag, Scaled(x, 1.0, 1e4 * Mu0, 1.0), "G", "Oe", false)
            == Ok(Conversion(Some(Scaled(Scaled(x, 1.0, 1e4 * Mu0, 1.0), 1.0, 1.0, 1.0)), []))
    ensures ConvertUnit(Convmag, x, "A/m", "Oe", false) == Ok(Conversion(Some(Scaled(x, 1.0, 1e3 * Mu0, 1.0)), []))
  {
    AmpPerMetreToGauss(x);
    GaussToOersted(Scaled(x, 1.0, 1e4 * Mu0, 1.0));
    AmpPerMetreToOersted(x);
  }

  /** The field chain and the direct field entry scale a non-zero value differently. */
  lemma FieldChainScales(x: real)
    requires x != 0.0
    ensures Scaled(Scaled(x, 1.0, 1e4 * Mu0, 1.0), 1.0, 1.0, 1.0) != Scaled(x, 1.0, 1e3 * Mu0, 1.0)
  {
    ChainFactors();
    ChainDiffers(x, 1e4 * Mu0, 1.0, 1e3 * Mu0);
  }

  /**
   * The legacy field group contradicts itself: a non-zero field in A/m taken to G and then to
   * Oe comes out 1e4 mu_0 per A/m, while the direct A/m -> Oe entry gives 1e3 mu_0. This is
   * the chain law that Packaged.ConvmagChain proves for the packaged table, failing.
   */
  lemma FieldChainBreaks(x: real)
    requires x != 0.0
    ensures Value(ConvertUnit(Convmag, x, "A/m", "G", false)).Some?
    ensures Value(ConvertUnit(Convmag, Value(ConvertUnit(Convmag, x, "A/m", "G", false)).value, "G", "Oe", false))
            != Value(ConvertUnit(Convmag, x, "A/m", "Oe", false))
  {
    FieldChainValues(x);
    FieldChainScales(x);
  }

  /** What the three energy conversions of the chain J/m^3 -> GOe -> erg/cm^3 and of J/m^3 -> erg/cm^3 give. */
  lemma EnergyChainValues(x: real)
    ensures ConvertUnit(Convmag, x, "J/m^3", "GOe", false) == Ok(Conversion(Some(Scaled(x, 1.0, 1e8 * Mu0, 1.0)), []))
    ensures ConvertUnit(Convmag, Scaled(x, 1.0, 1e8 * Mu0, 1.0), "GOe", "erg/cm^3", false)
            == Ok(Conversion(Some(Scaled(Scaled(x, 1.0, 1e8 * Mu0, 1.0), 1.0, 1e3 * Mu0, 1.0)), []))
    ensures ConvertUnit(Convmag, x, "J/m^3", "erg/cm^3", false) == Ok(Conversion(Some(Scaled(x, 1.0, 1e1, 1.0)), []))
  {
    JouleToGaussOersted(x);
    LegacyEnergyProduct(Scaled(x, 1.0, 1e8 * Mu0, 1.0));
    JouleToErg(x);
  }

  /** The energy chain and the direct energy entry scale a non-zero value differently. */
  lemma EnergyChainScales(x: real)
    requires x != 0.0
    ensures Scaled(Scaled(x, 1.0, 1e8 * Mu0, 1.0), 1.0, 1e3 * Mu0, 1.0) != Scaled(x, 1.0, 1e1, 1.0)
  {
    ChainFactors();
    ChainDiffers(x, 1e8 * Mu0, 1e3 * Mu0, 1e1);
  }

  /**
   * The legacy energy group contradicts itself: J/m^3 taken to G*Oe and then to erg/cm^3 comes
   * out 1e11 mu_0^2 (about 0.158) per J/m^3, while the direct entry gives 10.
   */
  lemma EnergyChainBreaks(x: real)
    requires x != 0.0
    ensures Value(ConvertUnit(Convmag, x, "J/m^3", "GOe", false)).Some?
    ensures Value(ConvertUnit(Convmag, Value(ConvertUnit(Convmag, x, "J/m^3", "GOe", false)).value, "GOe", "erg/cm^3", false))
            != Value(ConvertUnit(Convmag, x, "J/m^3", "erg/cm^3", false))
  {
    EnergyChainValues(x);
    EnergyChainScales(x);
  }

  /**
   * No assignment of sizes to units is consistent with the legacy table: unlike the packaged
   * table (Packaged.ConvmagScales), it does not describe one physical quantity per group.
   */
  lemma NoSizes(size: map<string, real>)
    ensures !Scales(Convmag, size)
  {
    FieldEntry(("A/m", "G"));
    FieldEntry(("G", "Oe"));
    FieldEntry(("A/m", "Oe"));
    ChainFactors();
    InconsistentTriangle(Convmag, size, "A/m", "G", "Oe");
  }
}
