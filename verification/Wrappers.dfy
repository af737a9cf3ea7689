/** A value that may be missing: a NULL pointer, a mutex nobody holds. */
module Wrappers {
  datatype Option<+T> = None | Some(value: T)
}
