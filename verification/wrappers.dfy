/** The optional value used for the store's possibly-undefined fields. */
module Wrappers {
  datatype Option<+T> = None | Some(value: T)
}
