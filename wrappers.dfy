/** Failure-carrying values used where the source returns None or raises. */
module Wrappers {

  /** Python's Optional[T]: None or a value. */
  datatype Option<+T> = None | Some(value: T)

  /** A value, or the error the source would raise instead. */
  datatype Result<+T, +E> = Ok(value: T) | Err(error: E)
}
