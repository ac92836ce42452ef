/** Option and Result, the two failure-carrying datatypes the model uses in
    place of Python's `None` and of exceptions. */
module Wrappers {

  datatype Option<+T> = None | Some(value: T)

  datatype Result<+R, +E> = Ok(value: R) | Err(error: E)
}
