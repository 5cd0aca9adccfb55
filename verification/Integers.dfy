/** Math.max and Math.min. */
module Integers {
  function Max(a: nat, b: nat): nat {
    if a > b then a else b
  }

  function Min(a: int, b: int): int {
    if a <= b then a else b
  }
}
