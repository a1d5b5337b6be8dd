/** Option and Result, used for the page's "may be missing" and "may fail" outcomes. */
module Wrappers {

  datatype Option<+T> = None | Some(value: T)

  datatype Result<+T, +E> = Ok(value: T) | Err(error: E)
}
