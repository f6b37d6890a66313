/** The physical constants and the metric-prefix table that both copies of convmag define identically. */
module Constants {

  /** Permeability of free space in Vs/Am, written exactly as the source does (4 * 3.14159 * 1e-7). */
  const Mu0: real := 4.0 * 3.14159 * 1e-7

  /** The Bohr magneton in Am^2. */
  const MuB: real := 9.274015e-24

  /** The micro sign U+00B5, the prefix character the source uses for 1e-6. */
  const Micro: char := '\U{00B5}'

  /** The prefix table: one character in front of a base unit multiplies it by this scale. */
  const Prefixes: map<char, real> := map['M' := 1e6, 'k' := 1e3, 'm' := 1e-3, Micro := 1e-6]

  /** A character the prefix table knows. */
  type Prefix = c: char | c in Prefixes witness 'k'

  /** The scale a prefix stands for; every one of them is positive, so dividing by it is safe. */
  function PrefixScale(p: Prefix): (s: real)
    ensures s > 0.0
    ensures s == 1e6 || s == 1e3 || s == 1e-3 || s == 1e-6
  {
    Prefixes[p]
  }
}
