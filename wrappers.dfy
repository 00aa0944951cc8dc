/** The Option and Result datatypes used by the counter model. */
module Wrappers {

  /** A value that may be absent, such as a React context read outside its provider. */
  datatype Option<+T> = None | Some(value: T)

  /** The outcome of an operation that either yields a value or raises an error. */
  datatype Result<+T, +E> = Success(value: T) | Failure(error: E)
}
