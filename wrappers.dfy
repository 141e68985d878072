/** Optional values and results with an error branch, shared by every module. */
module Wrappers {

  /** A value that may be absent: a missing request field or a lookup that found nothing. */
  datatype Option<+T> = None | Some(value: T)

  /** The outcome of a handler: the value it responds with, or the error it reports. */
  datatype Result<+T, +E> = Ok(value: T) | Err(error: E)
}
