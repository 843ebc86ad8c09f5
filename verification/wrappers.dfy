/** An optional value and the outcome of a parse. */
module Wrappers {

  /** A value that may be absent; stands in for a null pointer or a missing map key. */
  datatype Option<+T> = None | Some(value: T)

  /** The outcome of an operation that may reject its input. */
  datatype Result<+T, +E> = Success(value: T) | Failure(error: E)
}
