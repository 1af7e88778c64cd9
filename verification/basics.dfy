/** Failure-carrying values shared by every module of the model. */
module Basics {

  /** A value that may be absent: a JavaScript `null`/`undefined`, a missing
      document, a missing header or a missing uploaded file. */
  datatype Option<+T> = None | Some(value: T)

  /** The outcome of a step that either yields a value or throws. */
  datatype Result<+T, +E> = Ok(value: T) | Err(error: E)

  /** An exception thrown inside a handler; only its message survives. */
  datatype Thrown = Thrown(message: string)
}
