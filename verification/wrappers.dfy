/** Option and result types shared by the whole model. */
module Wrappers {

  /** A value that may be absent; stands for Python's `None`. */
  datatype Option<+T> = None | Some(value: T)

  /** Either a computed value or the error the source raises. */
  datatype Result<+T, +E> = Ok(value: T) | Err(error: E)
}
