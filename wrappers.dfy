/** Option and Result, the two failure-carrying shapes the model uses in place of Go's
    `(*T, error)` pairs and of JavaScript's `null`. */
module Wrappers {

  datatype Option<+T> = None | Some(value: T)

  datatype Result<+T, +E> = Ok(value: T) | Err(error: E)
}
