/** Option, Result and Outcome: the error-first callbacks of the system become values. */
module Wrappers {
  datatype Option<T> = None | Some(value: T)

  /** A callback's (err, value) pair: either a value or the error message handed back. */
  datatype Result<T> = Ok(value: T) | Err(error: string)

  /** A callback that carries no value: `callback(null)` or `callback(err)`. */
  datatype Outcome = Pass | Fail(error: string)
}
