/** Definitions shared by the models. */
module Prelude {

  datatype Option<+T> = None | Some(value: T)

  /** Go's `time.Time` as an integer instant; `NO_TIME` is the zero time that `IsZero` tests for. */
  type Time = int
  const SECOND: Time := 1_000_000_000
  const NO_TIME: Time := 0

  function Max(a: int, b: int): int { if a < b then b else a }
  function Min(a: int, b: int): int { if a < b then a else b }
}
