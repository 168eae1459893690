/** Failure-carrying values used in place of the exceptions the system raises. */
module Results {

  datatype Option<+T> = None | Some(value: T)

  /** A computation that yields a value or the error it raised. */
  datatype Result<+T, +E> = Ok(value: T) | Err(error: E)

  /** A computation that yields nothing on success, or the error it raised. */
  datatype Outcome<+E> = Pass | Fail(error: E)
}
