/** The two result types shared by every component. */
module Wrappers {

  /** A value that may be missing; also stands for Go's zero `time.Time`. */
  datatype Option<+T> = None | Some(value: T)

  /** A Go `(value, error)` pair. */
  datatype Result<+T, +E> = Ok(value: T) | Err(error: E)
}
