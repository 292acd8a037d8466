/** Optional values, for the nullable state fields of the scanner. */
module Wrappers {

  datatype Option<+T> = None | Some(value: T)
}
