/** Optional values, standing in for the nullable pointers and "unset" slots of the source. */
module Wrappers {
  datatype Option<+T> = None | Some(value: T)
}
