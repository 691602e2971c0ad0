/** Conversions the program's arithmetic relies on. */
module Numeric {

  /** int(x): towards zero. */
  function Truncate(x: real): int { if x >= 0.0 then x.Floor else -((-x).Floor) }
}
