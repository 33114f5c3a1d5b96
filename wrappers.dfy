/** Option and Result types shared by the modules of the model. */
module Wrappers {

  datatype Option<+T> = None | Some(value: T)

  /** Either a value or the error that the Python code would have raised. */
  datatype Result<+T, +E> = Ok(value: T) | Err(error: E)
}
