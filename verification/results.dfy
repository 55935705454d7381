/** Failure-carrying wrappers used in place of JavaScript's `undefined` results and thrown errors. */
module Results {

  /** A value that may be absent. */
  datatype Option<+T> = None | Some(value: T)

  /** Either a value or the error that a JavaScript call would have thrown or reported. */
  datatype Result<+T, +E> = Ok(value: T) | Err(error: E)
}
