/** Stock result types. */
module Wrappers {

  /** A value that may be absent, such as a Python `None`. */
  datatype Option<+T> = None | Some(value: T)

  /** The outcome of an operation that may raise an error. */
  datatype Result<+T, +E> = Ok(value: T) | Err(error: E)
}
