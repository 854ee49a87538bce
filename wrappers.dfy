/** Optional values, standing for a framework handle that may be invalid. */
module Wrappers {

  datatype Option<+T> = None | Some(value: T)
}
