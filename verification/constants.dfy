/** The numeric constants of the orbit model. */
module Constants {

  /** numpy's pi, written to the precision of an IEEE double. */
  const PI: real := 3.141592653589793

  /** Gravitational constant, m^3 kg^-1 s^-2. */
  const G: real := 0.00000000006674

  /** Mass of the Earth, kg. */
  const M_EARTH: real := 5972200000000000000000000.0
}
