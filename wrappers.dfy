/** Option and Result: the failure-carrying values of the model. */
module Wrappers {

  datatype Option<+T> = None | Some(value: T)

  /** A computation that either yields a value or stops with an error, as a
      Python `raise` does. */
  datatype Result<+T, +E> = Success(value: T) | Failure(error: E)
}
