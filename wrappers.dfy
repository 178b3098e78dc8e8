/** Optional values, for lookups that may find nothing and body fields that may be absent. */
module Wrappers {

  datatype Option<+T> = None | Some(value: T)
}
