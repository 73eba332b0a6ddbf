/** Failure-compatible return types shared by the model. */
module Wrappers {

  /** A value that may be absent; stands for a Python argument that may be `None`. */
  datatype Option<+T> = None | Some(value: T)

  /** Either a successful value or the error a Python function would have raised. */
  datatype Result<+T, +E> = Ok(value: T) | Err(error: E)
}
