/** A value that may be missing: the Go code's `(value, error)` pairs where only the error's presence matters. */
module Wrappers {
  datatype Option<+T> = None | Some(value: T)
}
