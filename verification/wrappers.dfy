/** Option and Result values used by the axis model. */
module Wrappers {

  datatype Option<T> = None | Some(value: T)

  /** A value, or the error a Python operation would have raised instead. */
  datatype Result<T, E> = Ok(value: T) | Err(error: E)
}
