/** Optional values and results: the shapes Python's `None` and raised exceptions take in this model. */
module Wrappers {

  /** A value that may be absent; `None` is Python's `None`, which is also SQL NULL in a row. */
  datatype Option<+T> = None | Some(value: T)

  /** The outcome of a call that either returns a value or raises `error`. */
  datatype Result<+T, +E> = Ok(value: T) | Err(error: E)
}
