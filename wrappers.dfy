/** Failure-carrying wrappers and the integer helpers shared by the
    valuation, text and debate models. */
module Wrappers {

  /** A value that may be absent (Python's `None`). */
  datatype Option<+T> = None | Some(value: T)

  /** Either a computed value or the error the operation raised instead. */
  datatype Result<+T, +E> = Success(value: T) | Failure(error: E)

  /** Python's `min` and `max` on two integers. */
  function Min(a: int, b: int): int { if a <= b then a else b }

  function Max(a: int, b: int): int { if a <= b then b else a }
}
