/** Option and Result, the model's stand-ins for Java's null references and
    thrown exceptions. */
module Wrappers {

  /** A possibly absent value: `None` plays the part of a Java `null`. */
  datatype Option<+T> = None | Some(value: T)

  /** The outcome of an operation that either returns a value or throws. */
  datatype Result<+T, +E> = Success(value: T) | Failure(error: E)
}
