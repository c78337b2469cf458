/** Option and Result, the value-level stand-ins for Python's None and for an exception. */
module Wrappers {

  datatype Option<+T> = None | Some(value: T)

  /** Ok(v) is a normal return; Err(e) is an exception e propagating out of the call. */
  datatype Result<+R, +E> = Ok(value: R) | Err(error: E)
}
