/** Small failure-compatible wrapper used across the model. */
module Wrappers {

  /** A value that may be absent: a NULL pointer in the C structures. */
  datatype Option<+T> = None | Some(value: T)
}
