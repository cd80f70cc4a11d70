/** Optional values, for lookups that may find nothing and for operations
    that may throw. */
module Wrappers {
  datatype Option<T> = None | Some(value: T)
}
