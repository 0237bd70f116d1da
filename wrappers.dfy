/** The optional value used across the model for C's NULL pointers and "no result" returns. */
module Wrappers {
  datatype Option<+T> = None | Some(value: T)
}
