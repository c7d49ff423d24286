// Basic types shared by every module: an unsigned byte and an optional
// value.
module Wrappers {
  /** An unsigned byte. */
  newtype byte = x: int | 0 <= x < 256

  datatype Option<T> = None | Some(value: T)
}
