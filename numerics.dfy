/** The transcendental functions the calculation uses, passed in as values: pi, the square
    root, the arc tangent and the natural logarithm of the view factor integrals, and tangent
    and cosine of angles in degrees. Nothing is assumed about them beyond `Sound`. */
module Numerics {

  datatype Transcendentals = Transcendentals(
    pi: real,
    sqrt: real -> real,
    atan: real -> real,
    log: real -> real,
    tanDeg: real -> real,
    cosDeg: real -> real)

  /** The properties of the real functions that the calculation relies on so that it never
      divides by zero: pi is positive, the square root of a positive number is positive, and
      the cosine of an angle strictly between -90 and 90 degrees is positive. */
  ghost predicate Sound(t: Transcendentals)
  {
    t.pi > 0.0 &&
    (forall v :: v > 0.0 ==> t.sqrt(v) > 0.0) &&
    (forall a :: -90.0 < a < 90.0 ==> t.cosDeg(a) > 0.0)
  }

  function Abs(x: real): (a: real)
    ensures a >= 0.0 && (a == x || a == -x)
  {
    if x < 0.0 then -x else x
  }
}
