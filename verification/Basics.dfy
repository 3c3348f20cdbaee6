/** Shared datatypes: an optional value, and the outcome of a call that may throw. */
module Basics {

  datatype Option<+T> = None | Some(value: T)

  datatype Result<+T, +E> = Success(value: T) | Failure(error: E)

  function Abs(x: int): nat {
    if x < 0 then -x else x
  }

  function Max(x: int, y: int): int {
    if x < y then y else x
  }

  /** Math.ceil(x / y) for a positive divisor. */
  function CeilDiv(x: int, y: int): (q: int)
    requires y > 0
    ensures (q - 1) * y < x <= q * y
  {
    -((-x) / y)
  }
}
