/** The two result shapes shared by every module of the project. */
module Wrappers {

  /** A value that a lookup may fail to produce. */
  datatype Option<+T> = None | Some(value: T)

  /** A Go `(value, error)` pair of which exactly one half is meaningful. */
  datatype Result<+T, +E> = Ok(value: T) | Err(error: E)
}
