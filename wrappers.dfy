/** Optional values and results with an error, shared by every module of the model. */
module Wrappers {

  /** A value that may be absent: JavaScript's `null`/`undefined`, or a lookup that found nothing. */
  datatype Option<+T> = None | Some(value: T)

  /** The outcome of a statement that can fail. */
  datatype Result<+T, +E> = Ok(value: T) | Err(error: E)
}
