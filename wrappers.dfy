/** The optional value used wherever the source returns either a result or FALSE. */
module Wrappers {
  datatype Option<+T> = None | Some(value: T)
}
