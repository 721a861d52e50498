/** Failure-compatible wrappers shared by the other modules. */
module Wrappers {

  /** An optional value: a search that found nothing, or what it found. */
  datatype Option<+T> = None | Some(value: T)

  /** The outcome of an operation that either succeeds or raises. */
  datatype Result<+T, +E> = Success(value: T) | Failure(error: E)
}
