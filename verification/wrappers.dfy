/** Option and Result datatypes used across the model. */
module Wrappers {

  /** A value that may be absent (JavaScript `undefined`/`null`, or a lookup that found nothing). */
  datatype Option<+T> = None | Some(value: T)

  /** The outcome of an operation that either yields a value or fails with an error. */
  datatype Result<+R, +E> = Ok(value: R) | Err(error: E)
}
