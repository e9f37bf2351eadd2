/** Optional values and results with an error, shared by the whole model. */
module Outcomes {

  /** A value that may be absent (Java's null, a missing JSON key). */
  datatype Option<+T> = None | Some(value: T)

  /** The outcome of an operation that may throw: its value, or the error it raised. */
  datatype Result<+T, +E> = Ok(value: T) | Err(error: E)
}
