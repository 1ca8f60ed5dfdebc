/** Option and Result: the absent value (Python's None) and the
    success-or-exception outcome of a call. */
module Wrappers {

  datatype Option<+T> = None | Some(value: T)

  /** Either the value a call returns, or the exception it raises. */
  datatype Result<+T, +E> = Ok(value: T) | Err(error: E)
}
