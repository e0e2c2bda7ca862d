/** Optional values, for the fields and lookups the engine leaves unset. */
module Wrappers {
  datatype Option<+T> = None | Some(value: T)
}
