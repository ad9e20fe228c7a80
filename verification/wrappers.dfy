/** Option and Result types standing in for Java's `null` and for exceptions. */
module Wrappers {

  /** `None` plays the part of a Java `null` reference. */
  datatype Option<+T> = None | Some(value: T)

  /** `Failure` plays the part of an exception that escapes the call. */
  datatype Result<+R, +E> = Success(value: R) | Failure(error: E)
}
