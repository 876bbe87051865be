/** Optional values and results, standing for Python's `None` and its raised exceptions. */
module Wrappers {

  /** `None` for Python's `None` (or a call that raised), `Some(v)` for a value. */
  datatype Option<+T> = None | Some(value: T)

  /** The outcome of a call that may raise: `Err(e)` stands for the exception `e`. */
  datatype Result<+T, +E> = Ok(value: T) | Err(error: E)
}
