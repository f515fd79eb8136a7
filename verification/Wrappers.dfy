/** The error returns of the C functions. */
module Wrappers {
  datatype Option<+T> = None | Some(value: T)
}
