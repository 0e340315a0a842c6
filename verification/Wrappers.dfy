/** Optional values, for lookups that may fail and for the source's exceptions. */
module Wrappers {
  datatype Option<+T> = None | Some(value: T)
}
