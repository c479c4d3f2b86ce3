/** Option: a value or nothing; None plays the part of a C NULL pointer. */
module Wrappers {
  datatype Option<+T> = None | Some(value: T)
}
