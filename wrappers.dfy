/** Option for lookups that may find nothing and for results that may fail. */
module Wrappers {
  datatype Option<+T> = None | Some(value: T)
}
