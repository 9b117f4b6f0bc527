/** Optional values and results with an error alternative. */
module Wrappers {

  /** A value that may be absent: Python's `None` or an unassigned slot. */
  datatype Option<T> = None | Some(value: T)

  /** The outcome of an operation that raises in the source when it fails. */
  datatype Result<T, E> = Success(value: T) | Failure(error: E)
}
