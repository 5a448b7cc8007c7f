/** Failure-compatible result values: the model's stand-in for Java's
    unchecked exceptions and for a map lookup that can miss. */
module Results {

  /** A value that may be absent. */
  datatype Option<+T> = None | Some(value: T)

  /** Either a computed value or the error the source would throw. */
  datatype Result<+T, +E> = Ok(value: T) | Err(error: E)

  /** The outcome of a check that returns nothing when it passes. */
  datatype Outcome<+E> = Pass | Fail(error: E)
}
