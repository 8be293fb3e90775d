/** Result types for the program's optional values and raised errors. */
module Outcomes {

  datatype Option<+T> = None | Some(value: T)

  /** A returned value, or the error that was raised instead. */
  datatype Result<+T, +E> = Ok(value: T) | Err(error: E)
}
