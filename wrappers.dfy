/** Option type used for lookups that may be invalid. */
module Wrappers {
  datatype Option<+T> = None | Some(value: T)
}
