/** The optional value used wherever the source returns "not found" or "failed". */
module Wrappers {
  datatype Option<+T> = None | Some(value: T)
}
