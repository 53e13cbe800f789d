/**
 * Explicit stand-ins for Python's `None` and for raised exceptions:
 * the Python code signals absence with `None` and failure by raising, the
 * model returns one of these values instead.
 */
module Basics {
  datatype Option<+T> = None | Some(value: T)

  datatype Result<+T, +E> = Ok(value: T) | Err(error: E)

  /** The outcome of a call that returns nothing when it succeeds. */
  datatype Outcome<+E> = Pass | Fail(error: E)
}
