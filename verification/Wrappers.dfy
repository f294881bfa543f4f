/** Optional values and results that carry an error, shared by every component. */
module Wrappers {
  datatype Option<+T> = None | Some(value: T)

  /** `Ok` is a normal return, `Err` the exception that the call throws. */
  datatype Result<+T, +E> = Ok(value: T) | Err(error: E)
}
