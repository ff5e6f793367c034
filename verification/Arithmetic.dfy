/** Shared arithmetic. */
module Arithmetic {
  function Min(a: int, b: int): int { if a <= b then a else b }
}
