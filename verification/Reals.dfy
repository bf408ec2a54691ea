/** Doubles as reals, with 0/0 kept apart, and products with a name so that a proof can leave them closed. */
module Reals {

  /** A double that may be the quotient 0/0; no other division by zero occurs. */
  datatype Double = Number(value: real) | NaN

  function Quotient(x: real, y: real): Double {
    if y == 0.0 then NaN else Number(x / y)
  }

  function Times(x: real, y: real): real {
    x * y
  }

  lemma ScaleSign(x: real, a: real)
    requires a > 0.0
    ensures x * a < 0.0 <==> x < 0.0
  {
  }
}
