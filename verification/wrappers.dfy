/** The `Option` type returned by an iterator's `next`. */
module Wrappers {
  datatype Option<+T> = None | Some(value: T)
}
