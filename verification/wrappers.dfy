/** Option and Result: absent values and thrown errors of the modelled code. */
module Wrappers {

  datatype Option<+T> = None | Some(value: T)

  /** A computation that either returns a value or throws `error`. */
  datatype Result<+T, +E> = Ok(value: T) | Err(error: E)
}
