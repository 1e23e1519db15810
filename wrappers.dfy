/** Result types shared by the parsers of this model. */
module Wrappers {

  /** An optional value: `None` stands for a Python exception that the caller catches. */
  datatype Option<+T> = None | Some(value: T)

  /** A value or an error. */
  datatype Result<+T, +E> = Ok(value: T) | Err(error: E)
}
