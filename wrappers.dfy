/** Option and Result, used for Java's null and for thrown exceptions. */
module Wrappers {

  /** A possibly-null Java reference: `None` stands for `null`. */
  datatype Option<+T> = None | Some(value: T)

  /** The outcome of a Java call: a returned value, or the exception it threw. */
  datatype Result<+R, +E> = Success(value: R) | Failure(error: E)
}
