/** Optional values and results used throughout the model: an optional value, and a
    result that is either a value or an error. */
module Options {

  /** A value that may be absent: JavaScript's `undefined` becomes None. */
  datatype Option<+T> = None | Some(value: T)

  /** Either a computed value or the error a JavaScript `throw` would raise. */
  datatype Result<+T, +E> = Ok(value: T) | Err(error: E)
}
