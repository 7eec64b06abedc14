/** Option and Result values for the lookups and loads that can fail. */
module Wrappers {

  /** A value that may be absent: a failed `list.index`, an out-of-range
      list subscript, an exhausted input stream. */
  datatype Option<+T> = None | Some(value: T)

  /** The outcome of an operation that the script lets raise an exception. */
  datatype Result<+R, +E> = Success(value: R) | Failure(error: E)
}
