/** Optional values and success-or-error values, used for every error path of the model. */
module Results {

  /** A value that may be absent: `undefined` in the source's optional fields. */
  datatype Option<+T> = None | Some(value: T)

  /** The outcome of an operation that can throw: `Ok` carries the returned value,
      `Err` carries what was thrown. */
  datatype Result<+T, +E> = Ok(value: T) | Err(error: E)
}
