/** Optional values, used for the handle of the pending timer callback. */
module Wrappers {

  datatype Option<+T> = None | Some(value: T)
}
