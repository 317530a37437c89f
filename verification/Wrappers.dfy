/** Option and Result, used for the source's `Option` values, status-code errors and early exits. */
module Wrappers {
  datatype Option<+T> = None | Some(value: T)

  datatype Result<+T, +E> = Ok(value: T) | Err(error: E)
}
