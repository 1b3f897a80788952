/** Option, Result and Outcome: the shapes in which the model reports
    Python's None, raised exceptions and "raises or returns nothing". */
module Wrappers {

  datatype Option<+T> = None | Some(value: T)

  datatype Result<+T, +E> = Ok(value: T) | Err(error: E)

  /** The outcome of a step that either passes or raises `error`. */
  datatype Outcome<+E> = Pass | Fail(error: E)
}
