/** Option and Result, the failure-carrying values the model uses in place
    of null pointers and of the source's fatal `log_error` calls. */
module Wrappers {

  datatype Option<+T> = None | Some(value: T)

  datatype Result<+T, +E> = Ok(value: T) | Err(error: E)
}
