/** Option and Result, used for Go's nil-able values and its (value, error) returns. */
module Wrappers {

  /** A value that may be absent: Go's nil error, an unset cursor, a hidden template field. */
  datatype Option<+T> = None | Some(value: T)

  /** Go's `(T, error)` pair collapsed into one of its two meaningful shapes. */
  datatype Result<+T, +E> = Ok(value: T) | Err(error: E)
}
