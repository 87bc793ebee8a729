/** Optional values, for lookups that can miss and request fields that can be absent. */
module Wrappers {

  datatype Option<+T> = None | Some(value: T)

}
