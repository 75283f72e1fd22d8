/** The optional value used wherever the C code returns either a result or NULL. */
module Wrappers {
  datatype Option<+T> = None | Some(value: T)
}
