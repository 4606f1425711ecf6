/** The exceptions the matrix container throws, as values. */
module Errors {

  /** `std::invalid_argument` (non-square input, mismatched operand sizes)
      and `std::out_of_range` (an index at or beyond the size). */
  datatype ErrorKind = InvalidArgument | OutOfRange

  /** The outcome of an operation that returns a value or throws. */
  datatype Result<+T> = Ok(value: T) | Err(error: ErrorKind)

  /** The outcome of an operation that returns nothing or throws. */
  datatype Outcome = Pass | Fail(error: ErrorKind)
}
