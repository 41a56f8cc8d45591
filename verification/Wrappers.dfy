/** An optional value, shared by all components. */
module Wrappers {
  datatype Option<+T> = None | Some(value: T)
}
