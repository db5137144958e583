/** Option, for lookups that have no entry for some keys. */
module Wrappers {
  datatype Option<+T> = None | Some(value: T)
}
