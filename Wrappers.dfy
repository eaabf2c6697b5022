/** Option and Result, the two wrappers the model uses for Python's None and
    for a Python exception raised part-way through an expression. */
module Wrappers {

  datatype Option<+T> = None | Some(value: T)

  datatype Result<+T, +E> = Ok(value: T) | Err(error: E)
}
