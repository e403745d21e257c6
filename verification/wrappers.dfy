/** Optional values, used for lookups that may find nothing and for a date parse that may fail. */
module Wrappers {

  datatype Option<+T> = None | Some(value: T)
}
