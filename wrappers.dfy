/** Option and Result: Java's null and thrown exceptions, made explicit */
module Wrappers {

  /** A value that may be absent (a Java reference that may be null) */
  datatype Option<+T> = None | Some(value: T)

  /** The outcome of a call that either returns a value or throws */
  datatype Result<+R, +E> = Success(value: R) | Failure(error: E)
}
