/** Option, Result and Outcome: the shapes in which the model returns Python's
    `None`, its return values and the exceptions the source raises. */
module Wrappers {

  datatype Option<+T> = None | Some(value: T)

  /** A value, or the exception that a Python call raised instead. */
  datatype Result<+T, +E> = Ok(value: T) | Err(error: E)

  /** The result of a Python call that returns nothing on success. */
  datatype Outcome<+E> = Pass | Fail(error: E)
}
