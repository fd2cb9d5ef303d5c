/** Failure-carrying results used in place of the source's exceptions. */
module Wrappers {

  /** A computation that either yields a value or stops with an error. */
  datatype Result<+T, +E> = Success(value: T) | Failure(error: E)

  /** A check that either passes or stops with an error (a Python function returning None or raising). */
  datatype Outcome<+E> = Pass | Fail(error: E)
}
