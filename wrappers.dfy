/** Failure-carrying results, standing in for the exceptions the service throws. */
module Wrappers {

  datatype Option<+T> = None | Some(value: T)

  datatype Result<+T, +E> = Success(value: T) | Failure(error: E)
}

/** The two .NET numeric types the service relies on: `long` and `decimal`. */
module Numerics {

  const MIN_LONG: int := -0x8000_0000_0000_0000
  const MAX_LONG: int := 0x7FFF_FFFF_FFFF_FFFF

  /** A value of C#'s `long`. */
  type Long = x: int | MIN_LONG <= x <= MAX_LONG

  /** The largest value of C#'s `decimal` (2^96 - 1). */
  const MAX_DEC: real := 79228162514264337593543950335.0

  /** A value of C#'s `decimal`, as an exact number; scale and rounding are not modelled. */
  type Decimal = x: real | -MAX_DEC <= x <= MAX_DEC

  /** ArgumentOutOfRangeException, naming the offending constructor parameter. */
  datatype ArgumentOutOfRange = ArgumentOutOfRange(paramName: string)
}
