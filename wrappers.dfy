/** The optional value returned by the kernel's socket lookups (a possibly-NULL pointer). */
module Wrappers {
  datatype Option<+T> = None | Some(value: T)
}
