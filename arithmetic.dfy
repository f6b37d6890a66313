/** Sign facts about real products that the engine laws and the unit-cell formulas both use. */
module RealArith {

  /** A product of two positive numbers is positive. */
  lemma ProductPositive(a: real, b: real)
    requires a > 0.0 && b > 0.0
    ensures a * b > 0.0
  {
  }
}
