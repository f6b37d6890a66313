# convmag in Dafny

convmag converts values between magnetic units: fields (T, G, Oe, A/m, emu/cm^3, erg/Oecm^3), mass magnetisation (emu/g, Am^2/kg), energy product (J/m^3, GOe, erg/cm^3) and magnetic moment (Am^2, emu, erg/G, erg/Oe, muB). Any of these units may carry one of the prefixes M, k, m and µ. It also computes the volume of an orthogonal or hexagonal unit cell. Finally, it converts a moment in Bohr magnetons per formula unit into a polarisation in Tesla and back.

This project models that engine, `convert_unit`, over an arbitrary factor table, in three steps:
- **Resolver.** Each unit string is tried first as a whole base unit, then as a one-character prefix followed by a base unit. Anything else becomes the sentinel `""`.
- **Lookup.** The forward key gives the stored factor F. The reverse key gives 1/F. If neither is stored, the result is "not available".
- **Arithmetic.** The result is `number * pre * F / post`.

The engine is then instantiated with the two factor tables of the repository:
- the packaged copy, `src/convmag/convmag_functions.py`, the one the package imports;
- the legacy stand-alone copy, `convmag.py`.

Modules:
- `Wrappers`: `Option`, `Result`, and the Python exceptions the code can raise.
- `Constants`: `MU_0`, `MU_B` and the prefix table.
- `RealArith`: a sign fact about real products that the engine laws and the unit-cell formulas share.
- `Engine`: the resolver, the lookup and `convert_unit`, parametrised by the table. It also holds a batch version, which stands in for a numpy array.
- `Laws`: what the engine guarantees for every table, or for every well-formed one. This covers:
  - forward and reverse conversion;
  - the error cases;
  - round trips and prefix linearity;
  - agreement with a size per unit, and from that the chain law: a → b → c equals a → c.
- `Packaged`: the packaged table. It is well formed and has a consistent size for every unit, so round trips and chains hold for it.
- `ConvmagExamples`: concrete conversions with the packaged table.
- `Legacy`: the legacy table, its two differing entries, and the chains they break.
- `UnitCell`: unit-cell volume and the moment/polarisation formulas.

Modelling choices:
- Floats are reals, and the `eval`'d factor strings are real constants.
- The dictionary keyed by `"src_dst"` strings is a map keyed by `(src, dst)` pairs. `Engine.KeyInjective` and `Laws.StringKeyLookup` show that this is the same dictionary for the units involved.
- A Python exception is an `Err` value.
- What `convert_unit` prints is returned as a list of `Message` values beside the result.
- The source writes each table as one dictionary literal in four groups separated by blank lines. Here each group is its own map, and the table is their union (`+`). The union is the same dictionary, and the split lets each fact be checked one group at a time.

## Model

| member | source | states |
|---|---|---|
| Constants.PrefixScale | src/convmag/convmag_functions.py:34-38 | a prefix scales by 1e6, 1e3, 1e-3 or 1e-6 (M, k, m and µ, U+00B5), always a positive number |
| Engine.KeyInjective | src/convmag/convmag_functions.py:95 | the key s + "_" + e determines s and e when s has no "_", so pair keys and string keys are the same dictionary |
| Engine.Resolve | src/convmag/convmag_functions.py:70-92 | the whole string is tried before a prefix; a prefixed result has a prefix character followed by a base unit and is not itself a base unit; the result is NotRecognised exactly when the string denotes no unit; IndexError exactly for an empty string that is not a unit |
| Engine.Resolved.Scale | src/convmag/convmag_functions.py:72-75 | pre/post is positive, and differs from 1 exactly for a prefixed unit |
| Engine.Lookup | src/convmag/convmag_functions.py:94-102 | a forward entry gives its factor; otherwise a reverse entry F gives a factor whose product with F is 1, or ZeroDivisionError exactly when F is 0; the result is None exactly when the table relates the pair in neither direction |
| Engine.PlanConversion | src/convmag/convmag_functions.py:70-105 | both resolutions and the lookup are the engine's; "Start/End unit not recognised" is printed exactly for the unit that did not resolve; "Conversion not available" is printed exactly when no factor exists and both base units are valid |
| Engine.NotationFor | src/convmag/convmag_functions.py:107-111 | fixed notation exactly for 1e-3 <= conv <= 1e3, otherwise scientific; every result <= 0 is scientific |
| Engine.ConvertUnit | src/convmag/convmag_functions.py:45-113 | IndexError exactly when a unit string is empty (and "" is not a unit); a unit-error line exactly for a unit string that denotes no unit; a result shows its verbose line exactly when verbose is on, and is never reported as not available; verbose defaults to false |
| Engine.ConvertBatch | src/convmag/convmag_functions.py:97 | an array result has one element per input number |
| Engine.BatchPlan | src/convmag/convmag_functions.py:70-105 | a batch succeeds, gives a result and prints the same lines as one number with the same units |
| Engine.BatchIsElementwise | src/convmag/convmag_functions.py:97-101 | each element of a batch result is the single-number conversion of that element |
| Laws.StringKeyLookup | src/convmag/convmag_functions.py:95-101 | for a well-formed table, a string-key lookup finds an entry exactly when the pair is stored, also for the sentinel "" |
| Laws.SentinelUnrelated | src/convmag/convmag_functions.py:79-80 | the sentinel "" is related to no unit by a well-formed table |
| Laws.ForwardConversion | src/convmag/convmag_functions.py:95-97 | a stored forward entry F gives number * pre * F / post and prints nothing |
| Laws.ForwardBetweenBaseUnits | src/convmag/convmag_functions.py:95-97 | between two base units, a stored entry F multiplies by F |
| Laws.ReverseConversion | src/convmag/convmag_functions.py:98-101 | with only the reverse entry F stored, the result is number * pre * (1/F) / post |
| Laws.ReverseBetweenBaseUnits | src/convmag/convmag_functions.py:98-101 | between two base units, a stored reverse entry F multiplies by 1/F |
| Laws.PrefixedReverse | src/convmag/convmag_functions.py:73-75 | a prefixed start unit with a reverse entry gives number * scale * (1/F) |
| Laws.ResolvesPrefixed | src/convmag/convmag_functions.py:73-75 | a prefix before a base unit, where the whole string is not a base unit, resolves to that prefix and that unit |
| Laws.ResolvesNot | src/convmag/convmag_functions.py:76-80 | a non-empty string that is neither a base unit nor a prefixed one resolves to the sentinel |
| Laws.UnavailableConversion | src/convmag/convmag_functions.py:102-105 | two recognised units that the table does not relate give None and exactly one "Conversion not available" line, verbose or not |
| Laws.UnrecognisedUnit | src/convmag/convmag_functions.py:76-92 | an unrecognised unit gives None, and only the unit-error lines are printed, never "Conversion not available" |
| Laws.SameBaseUnitNotAvailable | src/convmag/convmag_functions.py:102-105 | u and a prefixed u (T and kT) give None with "Conversion not available" |
| Laws.NotationReciprocal | src/convmag/convmag_functions.py:107-111 | a non-zero result and its reciprocal are printed in the same notation, so a forward factor and its inverse look alike |
| Laws.QuietByDefault | src/convmag/convmag_functions.py:45 | a call without verbose is the non-verbose call and prints no result line |
| Laws.NoDivisionByZero | src/convmag/convmag_functions.py:101 | a well-formed table never raises ZeroDivisionError |
| Laws.RoundTrip | src/convmag/convmag_functions.py:97-101 | for a well-formed table, converting x there and back gives exactly x |
| Laws.ValueOf | src/convmag/convmag_functions.py:94-101 | the numeric outcome depends only on the two resolutions and the factor the lookup finds |
| Laws.ValueIsScaled | src/convmag/convmag_functions.py:97-101 | a result is number * pre * factor / post, with the factor the lookup finds |
| Laws.PrefixLinearStart | src/convmag/convmag_functions.py:73-75 | converting from prefix+u succeeds, gives a result and equals the prefix scale times converting from u, exactly when converting from u does |
| Laws.PrefixLinearEnd | src/convmag/convmag_functions.py:85-87 | converting to prefix+u is converting to u divided by the prefix scale |
| Laws.FactorIsSizeRatio | src/convmag/convmag_functions.py:97-101 | with a size per unit that every entry agrees with, the factor the engine finds, forward or inverted, is the ratio of the two sizes |
| Laws.ConversionIsScaleRatio | src/convmag/convmag_functions.py:97-101 | every result is x * size(start) / size(end), where a size is the prefix scale times the size of the base unit |
| Laws.ChainedConversion | src/convmag/convmag_functions.py:97-101 | when the table agrees with sizes, a → b → c gives what a → c gives |
| Laws.WellFormedFour | src/convmag/convmag_functions.py:11-32 | four well-formed groups over disjoint units merge into a well-formed table |
| Laws.ScalesFour | src/convmag/convmag_functions.py:11-32 | four groups that agree with their own sizes merge into a table that agrees with the merged sizes |
| Laws.InconsistentTriangle | convmag.py:29-31 | a table whose entries a→b and b→c do not multiply to a→c agrees with no sizes at all |
| Laws.UnrelatedAcross | src/convmag/convmag_functions.py:11-32 | units of two different groups are never related in the merged table |
| Packaged.UnitsOfConvmag | src/convmag/convmag_functions.py:11-41 | the unit set, which Engine.Units builds from the start and end token of every key, is exactly the sixteen base units, and "muB/fu" is not one of them |
| Packaged.ConvmagWellFormed | src/convmag/convmag_functions.py:11-32 | no self-pair, no pair stored in both directions, every factor positive, no unit empty or containing "_" |
| Packaged.ConvmagScales | src/convmag/convmag_functions.py:11-32 | every entry is the ratio of two sizes: Oe for fields, G*Oe for energy, emu for moments |
| Packaged.ConvmagRoundTrip | src/convmag/convmag_functions.py:97-101 | converting x there and back gives exactly x |
| Packaged.ConvmagChain | src/convmag/convmag_functions.py:11-32 | any two chained conversions agree with the direct one |
| Packaged.ConvmagForward | src/convmag/convmag_functions.py:95-97 | a forward entry between two base units multiplies by its factor |
| Packaged.ConvmagReverse | src/convmag/convmag_functions.py:98-101 | a reverse entry between two base units multiplies by the inverse of its factor |
| Packaged.ConvmagPrefixedReverse | src/convmag/convmag_functions.py:73-75 | a prefixed start unit with a reverse entry scales by the prefix, then by 1/F |
| Packaged.ConvmagPrefixedNotAvailable | src/convmag/convmag_functions.py:102-105 | a base unit and the same unit with a prefix give None and "Conversion not available" |
| Packaged.ConvmagNotAvailable | src/convmag/convmag_functions.py:102-105 | two base units that no entry relates give None and "Conversion not available" |
| Packaged.ConvmagUnknownStart | src/convmag/convmag_functions.py:76-80 | an unknown non-empty start unit gives None and only "Start unit not recognised" |
| Packaged.FieldAndMomentUnrelated | src/convmag/convmag_functions.py:11-31 | no field unit is related to a moment unit |
| ConvmagExamples.TeslaInGauss | src/convmag/convmag_functions.py:11 | x T is x * 1e4 G |
| ConvmagExamples.AmpPerMetreInTesla | src/convmag/convmag_functions.py:13 | x A/m is x * MU_0 T |
| ConvmagExamples.BohrMagnetonIsWhole | src/convmag/convmag_functions.py:70-72 | "muB" resolves whole with scale 1, so x muB is x * MU_B Am^2 |
| ConvmagExamples.GaussOerstedInErgPerCm3 | src/convmag/convmag_functions.py:24 | x GOe is x / (1e7 MU_0) erg/cm^3, through the inverted entry |
| ConvmagExamples.FieldChainAgrees | src/convmag/convmag_functions.py:14-16 | 1 A/m → G → Oe and 1 A/m → Oe both give 1e4 MU_0 |
| ConvmagExamples.MegaGaussOerstedInJoulePerCubicMetre | src/convmag/convmag_functions.py:73-75 | x MGOe is x * 1e6 / (1e8 MU_0) J/m^3 |
| ConvmagExamples.TeslaToKiloTeslaNotAvailable | src/convmag/convmag_functions.py:102-105 | T → kT gives None and "Conversion not available: T to kT" |
| ConvmagExamples.GaussToBohrMagnetonNotAvailable | src/convmag/convmag_functions.py:102-105 | G → muB gives None and "Conversion not available: G to muB" |
| ConvmagExamples.UnknownStartUnit | src/convmag/convmag_functions.py:76-80 | Z → T gives None and only "Start unit not recognised" |
| ConvmagExamples.EmptyUnitIsIndexError | src/convmag/convmag_functions.py:73 | an empty start unit raises IndexError |
| ConvmagExamples.BatchTeslaInGauss | src/convmag/convmag_functions.py:97 | an array T → G multiplies each element by 1e4 and prints nothing |
| Legacy.FieldDifference | convmag.py:26-33 | the legacy field group is the packaged one with A/m → Oe = 1e3 MU_0 |
| Legacy.EnergyDifference | convmag.py:37-39 | the legacy energy group stores GOe → erg/cm^3 = 1e3 MU_0 in place of erg/cm^3 → GOe = 1e7 MU_0 |
| Legacy.SameUnits | convmag.py:26-56 | both copies have the same sixteen base units |
| Legacy.ConvmagWellFormed | convmag.py:26-47 | the legacy table is well formed too |
| Legacy.ConvmagRoundTrip | convmag.py:110-116 | round trips give exactly x with the legacy table too |
| Legacy.LegacyEnergyProduct | convmag.py:39 | x GOe is x * 1e3 MU_0 erg/cm^3, and the reverse is x / (1e3 MU_0) |
| Legacy.AmpPerMetreToOersted | convmag.py:31 | x A/m is x * 1e3 MU_0 Oe in the legacy copy |
| Legacy.FieldChainBreaks | convmag.py:29-31 | A/m → G → Oe differs from A/m → Oe for every non-zero value |
| Legacy.EnergyChainBreaks | convmag.py:37-39 | J/m^3 → GOe → erg/cm^3 differs from J/m^3 → erg/cm^3 for every non-zero value |
| Legacy.NoSizes | convmag.py:29-31 | no sizes agree with the legacy table, so the chain law has nothing to rest on |
| UnitCell.CalculateUnitcellVolume | src/convmag/convmag_functions.py:144-149 | a volume exactly for gamma 90 or 120; any other gamma is UnboundLocalError; gamma defaults to 90 |
| UnitCell.OrthogonalSymmetric | src/convmag/convmag_functions.py:144-145 | the orthogonal volume does not depend on the order of a, b and c |
| UnitCell.HexagonalIgnoresB | src/convmag/convmag_functions.py:146-147 | the hexagonal volume ignores b and is 0.866 times the a*a*c orthogonal volume |
| UnitCell.VolumePositive | src/convmag/convmag_functions.py:144-147 | positive lattice parameters give a positive volume |
| UnitCell.DefaultGammaIsOrthogonal | src/convmag/convmag_functions.py:116 | a call without gamma computes the orthogonal volume a*b*c |
| UnitCell.CubicCellVolume | src/convmag/convmag_functions.py:144-145 | a cube of edge 5 has volume 125 |
| UnitCell.HexagonalCellVolume | src/convmag/convmag_functions.py:146-147 | a = 4, c = 6 at 120 degrees gives 0.866 * 16 * 6 |
| UnitCell.PowerPositive | src/convmag/convmag_functions.py:147 | a**n of a positive base is positive |
| UnitCell.MuBPerFuToTesla | src/convmag/convmag_functions.py:177-180 | ZeroDivisionError exactly for a zero volume |
| UnitCell.TeslaToMuBPerFu | src/convmag/convmag_functions.py:211-214 | ZeroDivisionError exactly for zero formula units |
| UnitCell.MomentRoundTrip | src/convmag/convmag_functions.py:177-214 | a moment taken to Tesla and back is the moment again, for num_fu and vol non-zero |
| UnitCell.PolarisationRoundTrip | src/convmag/convmag_functions.py:177-214 | a polarisation taken to a moment and back is the polarisation again |
| UnitCell.PolarisationPositive | src/convmag/convmag_functions.py:177-180 | a positive moment in a positive cell gives a positive polarisation |

## Left out

- The command-line front end is not part of this model: `src/convmag/main.py` and the interactive `__main__` block of convmag.py (lines 233-299). These are input(), print() and the splitting of the typed line. So is `src/convmag/__init__.py`, which holds a version string and a re-export.
- Text formatting is not modelled: the `.5f`/`.5e` formatting, the wording of the printed lines and the column layout. Diagnostics are `Message` values. The verbose line records only its notation, fixed or scientific.
- Floating-point rounding: arithmetic is over exact reals. The round trips and chain laws therefore hold exactly here, but only approximately in Python.
- `eval` of the factor strings: each string is the real constant it evaluates to.
- numpy: an array is a `seq<real>`, converted with verbose off. With verbose on, the source's comparison `1e3 >= conv >= 1e-3` raises for an array of more than one element, because numpy cannot take the truth value of the element-wise comparison. That case is not modelled.
- Engine.ConvertUnit: when the end unit string is empty and the start unit was not recognised, the source prints the start-unit error (src/convmag/convmag_functions.py:77-78) before line 85 raises IndexError. The model returns only `Err(IndexError)` and drops that line. An empty start unit raises at line 73 before anything is printed, exactly as in the model.
- Engine.NotationFor: follows the code, which compares `conv` itself, not its magnitude. Every negative result is printed in scientific notation, which a description in terms of magnitudes would not predict.
- Legacy: its `convert_unit`, `calculate_unitcell_volume`, `muB_per_fu_to_Tesla` and `Tesla_to_muB_per_fu` (convmag.py:60-229) are line for line the packaged code. They are modelled by `Engine` and `UnitCell` applied to the legacy table, not a second time.

## Findings

| source | as written | input that shows it | evidently intended | confidence | as-written member | corrected member |
|---|---|---|---|---|---|---|
| convmag.py:31 | `"A/m_Oe" : "1e3 * MU_0"` | 1 A/m → G → Oe gives 1e4·MU_0 Oe (A/m_G = 1e4·MU_0, G_Oe = 1), but 1 A/m → Oe gives 1e3·MU_0 | `1e4 * MU_0`, as in src/convmag/convmag_functions.py:16 | high, not executed | Legacy.FieldChainBreaks | Packaged.ConvmagChain |
| convmag.py:39 | `"GOe_erg/cm^3" : "1e3 * MU_0"` | 1 J/m^3 → GOe → erg/cm^3 gives 1e8·MU_0 · 1e3·MU_0 = 1e11·MU_0² ≈ 0.158, but 1 J/m^3 → erg/cm^3 gives 10 | `"erg/cm^3_GOe" : "1e7 * MU_0"`, as in src/convmag/convmag_functions.py:24 | high, not executed | Legacy.EnergyChainBreaks | Packaged.ConvmagChain |
