/** Values that may be absent, and values or the error thrown instead. */
module Wrappers {
  /** A value, or the `null` or `undefined` that stands for its absence. */
  datatype Option<+T> = None | Some(value: T)

  datatype Result<+T, +F> = Ok(value: T) | Err(failure: F)
}
