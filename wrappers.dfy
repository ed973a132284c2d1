/** Option and Result values shared by the other modules. */
module Wrappers {

  /** A value that may be absent (the source's `null`). */
  datatype Option<+T> = None | Some(value: T)

  /** The outcome of an operation that may throw instead of returning. */
  datatype Result<+T, +E> = Ok(value: T) | Err(error: E)
}
