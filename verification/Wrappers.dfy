module Wrappers {
  datatype Option<+T> = None | Some(value: T)

  /** A value, or the message-free error a Python exception or a C error code stands for. */
  datatype Result<+T, +E> = Ok(value: T) | Err(error: E)
}
