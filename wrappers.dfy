/** Failure-carrying result types used in place of the Java exceptions and nulls. */
module Wrappers {

  /** A nullable reference: `None` stands for Java's `null`. */
  datatype Option<+T> = None | Some(value: T)

  /** The value a service method returns, or the exception it throws. */
  datatype Result<+T, +E> = Ok(value: T) | Err(error: E)

  /** A guard that returns normally or throws. */
  datatype Outcome<+E> = Pass | Fail(error: E)
}
