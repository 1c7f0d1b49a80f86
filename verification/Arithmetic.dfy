/** The smaller and the larger of two numbers. */
module Arithmetic {
  function Min(x: int, y: int): int {
    if x <= y then x else y
  }

  function Max(x: int, y: int): int {
    if x >= y then x else y
  }
}
