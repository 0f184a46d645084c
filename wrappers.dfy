/** Option and Result, used for the source's `None` values and its error returns. */
module Wrappers {

  datatype Option<+T> = None | Some(value: T)

  /** `Err` carries the HTTP status, exit message or exception kind the source raises. */
  datatype Result<+T, +E> = Ok(value: T) | Err(error: E)
}
