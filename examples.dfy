/**
 * Worked conversions with the packaged table: each fixes the exact result (or diagnostic) the
 * engine gives for one kind of call. The engine's formula is number * pre * factor / post, so a
 * conversion between two base units comes out as Scaled(x, 1.0, factor, 1.0).
 */
module ConvmagExamples {
  import opened Wrappers
  import opened Constants
  import opened Engine
  import opened Laws
  import opened Packaged

  /** x T is x * 1e4 G: a forward entry between two base units. */
  lemma TeslaInGauss(x: real)
    ensures ConvertUnit(Convmag, x, "T", "G", false) == Ok(Conversion(Some(Scaled(x, 1.0, 1e4, 1.0)), []))
  {
    FieldEntry(("T", "G"));
    ConvmagForward(x, "T", "G");
  }

  /** x A/m is x * mu_0 T. */
  lemma AmpPerMetreInTesla(x: real)
    ensures ConvertUnit(Convmag, x, "A/m", "T", false) == Ok(Conversion(Some(Scaled(x, 1.0, Mu0, 1.0)), []))
  {
    FieldEntry(("A/m", "T"));
    ConvmagForward(x, "A/m", "T");
  }

  /** "muB" is a base unit, so it resolves whole with scale 1 although 'm' is a prefix: x muB is x * mu_B Am^2. */
  lemma BohrMagnetonIsWhole(x: real)
    ensures ConvertUnit(Convmag, x, "muB", "Am^2", false) == Ok(Conversion(Some(Scaled(x, 1.0, MuB, 1.0)), []))
  {
    assert ("muB", "Am^2") in Convmag && Convmag[("muB", "Am^2")] == MuB;
    ConvmagForward(x, "muB", "Am^2");
  }

  /** x G*Oe is x / (1e7 mu_0) erg/cm^3: only erg/cm^3 -> GOe is stored, so the engine inverts it. */
  lemma GaussOerstedInErgPerCm3(x: real)
    ensures ConvertUnit(Convmag, x, "GOe", "erg/cm^3", false)
            == Ok(Conversion(Some(Scaled(x, 1.0, 1.0 / (1e7 * Mu0), 1.0)), []))
  {
    EnergyEntry(("erg/cm^3", "GOe"));
    ConvmagReverse(x, "GOe", "erg/cm^3");
  }

  /** x A/m is x * 1e4 mu_0 G. */
  lemma AmpPerMetreInGauss(x: real)
    ensures ConvertUnit(Convmag, x, "A/m", "G", false) == Ok(Conversion(Some(Scaled(x, 1.0, 1e4 * Mu0, 1.0)), []))
  {
    FieldEntry(("A/m", "G"));
    ConvmagForward(x, "A/m", "G");
  }

  /** x G is x Oe. */
  lemma GaussInOersted(x: real)
    ensures ConvertUnit(Convmag, x, "G", "Oe", false) == Ok(Conversion(Some(Scaled(x, 1.0, 1.0, 1.0)), []))
  {
    FieldEntry(("G", "Oe"));
    ConvmagForward(x, "G", "Oe");
  }

  /** x A/m is x * 1e4 mu_0 Oe. */
  lemma AmpPerMetreInOersted(x: real)
    ensures ConvertUnit(Convmag, x, "A/m", "Oe", false) == Ok(Conversion(Some(Scaled(x, 1.0, 1e4 * Mu0, 1.0)), []))
  {
    FieldEntry(("A/m", "Oe"));
    ConvmagForward(x, "A/m", "Oe");
  }

  /** 1 A/m through gauss to oersted is what the direct entry A/m -> Oe gives. */
  lemma FieldChainAgrees()
    ensures Value(ConvertUnit(Convmag, 1.0, "A/m", "G", false)) == Some(1e4 * Mu0)
    ensures Value(ConvertUnit(Convmag, 1e4 * Mu0, "G", "Oe", false)) == Some(1e4 * Mu0)
    ensures Value(ConvertUnit(Convmag, 1.0, "A/m", "Oe", false)) == Some(1e4 * Mu0)
  {
    AmpPerMetreInGauss(1.0);
    GaussInOersted(1e4 * Mu0);
    AmpPerMetreInOersted(1.0);
  }

  /** The strings the examples below resolve, against the sixteen base units. */
  lemma ExampleUnits()
    ensures "GOe" in BaseUnits && "J/m^3" in BaseUnits && "T" in BaseUnits
    ensures "G" in BaseUnits && "muB" in BaseUnits
    ensures "MGOe" !in BaseUnits && "kT" !in BaseUnits && "Z" !in BaseUnits && "" !in BaseUnits
    ensures "MGOe" == ['M'] + "GOe" && "kT" == ['k'] + "T" && "Z"[0] !in Prefixes
  {
  }

  /** "MGOe" is the prefix M before the base unit GOe, and is not itself a base unit. */
  lemma MegaGaussOersted()
    ensures "MGOe" == ['M'] + "GOe" && "MGOe" !in BaseUnits
  {
  }

  /** x MGOe is x * 1e6 G*Oe, and so x * 1e6 / (1e8 mu_0) J/m^3: a prefix and an inverted entry. */
  lemma MegaGaussOerstedInJoulePerCubicMetre(x: real)
    ensures ConvertUnit(Convmag, x, "MGOe", "J/m^3", false)
            == Ok(Conversion(Some(Scaled(x, 1e6, 1.0 / (1e8 * Mu0), 1.0)), []))
  {
    MegaGaussOersted();
    EnergyEntry(("J/m^3", "GOe"));
    ConvmagPrefixedReverse(x, 'M', "GOe", "J/m^3");
  }

  /** T to kT has no result: a prefixed unit is never related to its own base unit. */
  lemma TeslaToKiloTeslaNotAvailable(x: real)
    ensures ConvertUnit(Convmag, x, "T", "kT", false)
            == Ok(Conversion(None, [ConversionNotAvailable("T", "kT")]))
  {
    ExampleUnits();
    ConvmagPrefixedNotAvailable(x, "T", 'k');
  }

  /** G and muB are in different groups, which no entry relates: no result, one diagnostic. */
  lemma GaussToBohrMagnetonNotAvailable(x: real)
    ensures ConvertUnit(Convmag, x, "G", "muB", false)
            == Ok(Conversion(None, [ConversionNotAvailable("G", "muB")]))
  {
    ExampleUnits();
    FieldAndMomentUnrelated("G", "muB");
    ConvmagNotAvailable(x, "G", "muB");
  }

  /** "Z" is neither a base unit nor a prefix: the start unit is reported and nothing is computed. */
  lemma UnknownStartUnit(x: real)
    ensures ConvertUnit(Convmag, x, "Z", "T", false) == Ok(Conversion(None, [StartUnitNotRecognised]))
  {
    ExampleUnits();
    ConvmagUnknownStart(x, "Z", "T");
  }

  /** An empty unit string makes the resolver index past its end. */
  lemma EmptyUnitIsIndexError(x: real)
    ensures ConvertUnit(Convmag, x, "", "T", false) == Err(IndexError)
  {
    ExampleUnits();
    BaseUnit("");
  }

  /** A batch T -> G multiplies every element by 1e4. */
  lemma BatchTeslaInGauss(numbers: seq<real>)
    ensures var r := ConvertBatch(Convmag, numbers, "T", "G");
            r.Ok? && r.value.printed == [] && r.value.conv.Some?
            && forall i | 0 <= i < |numbers| :: r.value.conv.value[i] == Scaled(numbers[i], 1.0, 1e4, 1.0)
  {
    var r := ConvertBatch(Convmag, numbers, "T", "G");
    TeslaInGauss(0.0);
    BatchPlan(Convmag, numbers, 0.0, "T", "G");
    forall i | 0 <= i < |numbers|
      ensures r.value.conv.value[i] == Scaled(numbers[i], 1.0, 1e4, 1.0)
    {
      TeslaInGauss(numbers[i]);
      BatchIsElementwise(Convmag, numbers, "T", "G", i);
    }
  }
}
