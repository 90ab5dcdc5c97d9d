/** Success/failure values for operations that throw or revert in the system modelled. */
module Results {

  /** The value of an operation that either produces a `T` or fails with an `E`. */
  datatype Result<+T, +E> = Ok(value: T) | Err(error: E)

  /** The outcome of an operation that returns nothing but may fail with an `E`. */
  datatype Outcome<+E> = Pass | Fail(error: E)

  /** A value that may be absent, as an entry missing from a configuration table. */
  datatype Option<+T> = None | Some(value: T)
}
