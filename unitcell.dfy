/**
 * The unit-cell formulas of convmag: the volume of an orthogonal or hexagonal cell, and the
 * conversion between a moment in Bohr magnetons per formula unit and a polarisation in Tesla.
 */
module UnitCell {
  import opened Wrappers
  import opened Constants
  import opened RealArith

  /**
   * calculate_unitcell_volume. gamma 90 gives a*b*c, gamma 120 the hexagonal 0.866*a^2*c
   * (b is not used); any other gamma leaves the result unassigned (UnboundLocalError).
   */
  function CalculateUnitcellVolume(a: real, b: real, c: real, gamma: real := 90.0): (r: Result<real, PyError>)
    ensures r.Ok? <==> gamma == 90.0 || gamma == 120.0
    ensures r.Err? ==> r.error == UnboundLocalError
  {
    if gamma == 90.0 then Ok(a * b * c)
    else if gamma == 120.0 then Ok(0.866 * Power(a, 2) * c)
    else Err(UnboundLocalError)
  }

  /** Python's x**n for a float x and a non-negative integer exponent n. */
  function Power(x: real, n: nat): real
  {
    if n == 0 then 1.0 else x * Power(x, n - 1)
  }

  /** A positive base keeps every power positive. */
  lemma {:induction false} PowerPositive(x: real, n: nat)
    requires x > 0.0
    ensures Power(x, n) > 0.0
  {
    if n > 0 {
      PowerPositive(x, n - 1);
      ProductPositive(x, Power(x, n - 1));
    }
  }

  /** The square is the product of the base with itself. */
  lemma PowerTwo(x: real)
    ensures Power(x, 2) == x * x
  {
    assert Power(x, 1) == x;
  }

  /** The orthogonal volume does not depend on the order of the three lattice parameters. */
  lemma OrthogonalSymmetric(a: real, b: real, c: real)
    ensures CalculateUnitcellVolume(a, b, c, 90.0) == CalculateUnitcellVolume(b, a, c, 90.0)
    ensures CalculateUnitcellVolume(a, b, c, 90.0) == CalculateUnitcellVolume(a, c, b, 90.0)
  {
  }

  /** The hexagonal volume ignores b and is the orthogonal a*a*c cell scaled by 0.866. */
  lemma HexagonalIgnoresB(a: real, b: real, b': real, c: real)
    ensures CalculateUnitcellVolume(a, b, c, 120.0) == CalculateUnitcellVolume(a, b', c, 120.0)
    ensures CalculateUnitcellVolume(a, b, c, 120.0).value == 0.866 * CalculateUnitcellVolume(a, a, c, 90.0).value
  {
    PowerTwo(a);
    Associate(0.866, Power(a, 2), c);
    assert CalculateUnitcellVolume(a, b, c, 120.0).value == 0.866 * (Power(a, 2) * c);
    assert CalculateUnitcellVolume(a, a, c, 90.0).value == Power(a, 2) * c;
  }

  /** Multiplication regroups. */
  lemma Associate(x: real, y: real, z: real)
    ensures x * y * z == x * (y * z)
  {
  }

  /** Positive lattice parameters give a positive volume for both supported angles. */
  lemma VolumePositive(a: real, b: real, c: real, gamma: real)
    requires a > 0.0 && b > 0.0 && c > 0.0
    requires gamma == 90.0 || gamma == 120.0
    ensures CalculateUnitcellVolume(a, b, c, gamma).value > 0.0
  {
    if gamma == 90.0 {
      OrthogonalValue(a, b, c);
    } else {
      HexagonalValue(a, b, c);
      assert CalculateUnitcellVolume(a, b, c, gamma).value == 0.866 * Power(a, 2) * c;
    }
  }

  /** The orthogonal volume of positive lattice parameters is positive. */
  lemma OrthogonalValue(a: real, b: real, c: real)
    requires a > 0.0 && b > 0.0 && c > 0.0
    ensures a * b * c > 0.0
  {
  }

  /** The hexagonal volume of positive lattice parameters is positive. */
  lemma HexagonalValue(a: real, b: real, c: real)
    requires a > 0.0 && c > 0.0
    ensures 0.866 * Power(a, 2) * c > 0.0
  {
    PowerPositive(a, 2);
    ProductPositive(0.866 * Power(a, 2), c);
  }

  /**
   * muB_per_fu_to_Tesla: the moment of the cell (muB_per_fu * num_fu Bohr magnetons) divided by
   * the cell volume in m^3, times the permeability of free space. A zero volume raises.
   */
  function MuBPerFuToTesla(muBPerFu: real, numFu: int, vol: real): (r: Result<real, PyError>)
    ensures r.Err? <==> vol == 0.0
    ensures r.Err? ==> r.error == ZeroDivisionError
  {
    var moment := muBPerFu * (numFu as real) * MuB;
    if vol == 0.0 then Err(ZeroDivisionError)
    else
      var momentVol := moment / vol;
      Ok(momentVol * Mu0)
  }

  /**
   * Tesla_to_muB_per_fu: the polarisation divided by the permeability of free space, times the
   * cell volume, divided by num_fu Bohr magnetons. Zero formula units raise.
   */
  function TeslaToMuBPerFu(polarisation: real, numFu: int, vol: real): (r: Result<real, PyError>)
    ensures r.Err? <==> numFu == 0
    ensures r.Err? ==> r.error == ZeroDivisionError
  {
    var momentVol := polarisation / Mu0;
    var moment := momentVol * vol;
    if (numFu as real) * MuB == 0.0 then Err(ZeroDivisionError)
    else Ok(moment / ((numFu as real) * MuB))
  }

  /** Dividing by what was multiplied in cancels it. */
  lemma MulDivCancel(x: real, y: real)
    requires y != 0.0
    ensures x * y / y == x
  {
  }

  /** Multiplying by what was divided out cancels it. */
  lemma DivMulCancel(x: real, y: real)
    requires y != 0.0
    ensures x / y * y == x
  {
  }

  /** Undoing a polarisation: the algebra of the moment round trip. */
  lemma UndoPolarisation(p: real, m: real, n: real, b: real, v: real, u: real)
    requires n != 0.0 && b != 0.0 && v != 0.0 && u != 0.0
    requires p == m * n * b / v * u
    ensures p / u * v / (n * b) == m
  {
    assert n * b != 0.0 by { MulNonZero(n, b); }
    MulDivCancel(m * n * b / v, u);
    DivMulCancel(m * n * b, v);
    Associate(m, n, b);
    MulDivCancel(m, n * b);
  }

  /** Undoing a moment: the algebra of the polarisation round trip. */
  lemma UndoMoment(m: real, p: real, n: real, b: real, v: real, u: real)
    requires n != 0.0 && b != 0.0 && v != 0.0 && u != 0.0
    requires m == p / u * v / (n * b)
    ensures m * n * b / v * u == p
  {
    assert n * b != 0.0 by { MulNonZero(n, b); }
    Associate(m, n, b);
    DivMulCancel(p / u * v, n * b);
    MulDivCancel(p / u, v);
    DivMulCancel(p, u);
  }

  /** A product of two non-zero numbers is non-zero. */
  lemma MulNonZero(x: real, y: real)
    requires x != 0.0 && y != 0.0
    ensures x * y != 0.0
  {
  }

  /** The value muB_per_fu_to_Tesla computes for a non-zero volume. */
  lemma TeslaValue(muBPerFu: real, numFu: int, vol: real)
    requires vol != 0.0
    ensures MuBPerFuToTesla(muBPerFu, numFu, vol) == Ok(muBPerFu * (numFu as real) * MuB / vol * Mu0)
  {
  }

  /** The value Tesla_to_muB_per_fu computes for a non-zero number of formula units. */
  lemma MomentValue(polarisation: real, numFu: int, vol: real)
    requires numFu != 0
    ensures TeslaToMuBPerFu(polarisation, numFu, vol) == Ok(polarisation / Mu0 * vol / ((numFu as real) * MuB))
  {
  }

  /** A moment converted to a polarisation and back is the moment again (num_fu, vol non-zero). */
  lemma MomentRoundTrip(muBPerFu: real, numFu: int, vol: real)
    requires numFu != 0 && vol != 0.0
    ensures MuBPerFuToTesla(muBPerFu, numFu, vol).Ok?
    ensures TeslaToMuBPerFu(MuBPerFuToTesla(muBPerFu, numFu, vol).value, numFu, vol) == Ok(muBPerFu)
  {
    var polarisation := MuBPerFuToTesla(muBPerFu, numFu, vol).value;
    TeslaValue(muBPerFu, numFu, vol);
    MomentValue(polarisation, numFu, vol);
    UndoPolarisation(polarisation, muBPerFu, numFu as real, MuB, vol, Mu0);
    assert TeslaToMuBPerFu(polarisation, numFu, vol).value == polarisation / Mu0 * vol / ((numFu as real) * MuB);
    assert polarisation / Mu0 * vol / ((numFu as real) * MuB) == muBPerFu;
    assert TeslaToMuBPerFu(polarisation, numFu, vol).value == muBPerFu;
  }

  /** A polarisation converted to a moment and back is the polarisation again (num_fu, vol non-zero). */
  lemma PolarisationRoundTrip(polarisation: real, numFu: int, vol: real)
    requires numFu != 0 && vol != 0.0
    ensures TeslaToMuBPerFu(polarisation, numFu, vol).Ok?
    ensures MuBPerFuToTesla(TeslaToMuBPerFu(polarisation, numFu, vol).value, numFu, vol) == Ok(polarisation)
  {
    var moment := TeslaToMuBPerFu(polarisation, numFu, vol).value;
    MomentValue(polarisation, numFu, vol);
    TeslaValue(moment, numFu, vol);
    UndoMoment(moment, polarisation, numFu as real, MuB, vol, Mu0);
    assert MuBPerFuToTesla(moment, numFu, vol).value == moment * (numFu as real) * MuB / vol * Mu0;
    assert moment * (numFu as real) * MuB / vol * Mu0 == polarisation;
    assert MuBPerFuToTesla(moment, numFu, vol).value == polarisation;
  }

  /** A quotient of two positive numbers is positive. */
  lemma PositiveQuotient(x: real, y: real)
    requires x > 0.0 && y > 0.0
    ensures x / y > 0.0
  {
  }

  /** A positive moment in a cell of positive volume with formula units in it gives a positive polarisation. */
  lemma PolarisationPositive(muBPerFu: real, numFu: int, vol: real)
    requires muBPerFu > 0.0 && numFu > 0 && vol > 0.0
    ensures MuBPerFuToTesla(muBPerFu, numFu, vol).Ok?
    ensures MuBPerFuToTesla(muBPerFu, numFu, vol).value > 0.0
  {
    TeslaValue(muBPerFu, numFu, vol);
    ProductPositive(muBPerFu, numFu as real);
    ProductPositive(muBPerFu * (numFu as real), MuB);
    PositiveQuotient(muBPerFu * (numFu as real) * MuB, vol);
    ProductPositive(muBPerFu * (numFu as real) * MuB / vol, Mu0);
  }

  /** Called without gamma, as the package's front end calls it, the cell is orthogonal. */
  lemma DefaultGammaIsOrthogonal(a: real, b: real, c: real)
    ensures CalculateUnitcellVolume(a, b, c) == Ok(a * b * c)
    ensures CalculateUnitcellVolume(a, b, c) == CalculateUnitcellVolume(a, b, c, 90.0)
  {
  }

  /** A cubic cell of edge 5: 125, as the interactive mode computes it. */
  lemma CubicCellVolume()
    ensures CalculateUnitcellVolume(5.0, 5.0, 5.0, 90.0) == Ok(125.0)
  {
  }

  /** A hexagonal cell with a = 4 and c = 6: 0.866 * 16 * 6. */
  lemma HexagonalCellVolume()
    ensures CalculateUnitcellVolume(4.0, 4.0, 6.0, 120.0) == Ok(83.136)
  {
    assert Power(4.0, 2) == 16.0;
  }
}
