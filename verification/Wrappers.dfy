/** The optional value used by all modules. */
module Wrappers {
  datatype Option<+T> = None | Some(value: T)
}
