/** Option and Result, the two wrappers the model uses for Python's `None`/NaN
    and for the exception that `int()` raises. */
module Wrappers {

  datatype Option<+T> = None | Some(value: T)

  datatype Result<+R, +E> = Ok(value: R) | Err(error: E)
}
