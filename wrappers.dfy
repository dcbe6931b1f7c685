/** Option and Result values shared by the interpreter modules. */
module Wrappers {

  datatype Option<+T> = None | Some(value: T)

  /** A result that is either a value or one of the interpreter's hard failures. */
  datatype Result<+T, +E> = Ok(value: T) | Err(error: E)
}
