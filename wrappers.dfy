/** Small failure-carrying datatypes shared by the other modules. */
module Wrappers {

  datatype Option<+T> = None | Some(value: T)

  /** The outcome of a step that may raise: a value, or the text of the exception. */
  datatype Result<+T> = Ok(value: T) | Err(detail: string)
}
