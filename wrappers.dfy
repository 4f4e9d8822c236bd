/** Failure-carrying return values, standing in for the exceptions the engine raises. */
module Wrappers {

  datatype Option<T> = None | Some(value: T)

  /** A value or the error that was raised instead. */
  datatype Result<T, E> = Ok(value: T) | Err(error: E)

  /** The outcome of an operation that returns nothing when it succeeds. */
  datatype Outcome<E> = Pass | Fail(error: E)
}
