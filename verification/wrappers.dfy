/**
 * Optional and fallible results, used wherever the C code returns NULL,
 * skips work silently, or would write past the end of a fixed array.
 */
module Wrappers {

  /** A value that may be absent (the C code's NULL pointer). */
  datatype Option<+T> = None | Some(value: T)

  /** A computation that either produced a value or stopped with an error. */
  datatype Result<+T, +E> = Ok(value: T) | Err(error: E)
}
