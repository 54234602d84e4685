/** The optional value used throughout the model for null pointers and missing records. */
module Wrappers {
  datatype Option<+T> = None | Some(value: T)
}
