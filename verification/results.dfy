/** Optional values and success/failure values, standing in for Python's
    `None` and for exceptions that a caller either propagates or swallows. */
module Results {

  datatype Option<+T> = None | Some(value: T)

  /** `Ok` is a normal return, `Err` a raised exception carrying its kind. */
  datatype Result<+T, +E> = Ok(value: T) | Err(error: E)

}
