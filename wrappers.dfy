/** The optional value used for nullable columns and for operations that may refuse. */
module Wrappers {
  datatype Option<+T> = None | Some(value: T)
}
