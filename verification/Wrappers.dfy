/** Option, for what may be NULL and fields that may be absent. */
module Wrappers {
  datatype Option<+T> = None | Some(value: T)
}
