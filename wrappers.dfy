/** Small failure-compatible helper shared by the other modules. */
module Wrappers {

  /** A value that may be missing: the model's stand-in for a C pointer that may be NULL. */
  datatype Option<+T> = None | Some(value: T)
}
