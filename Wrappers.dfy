/** Optional values, for results that JavaScript reports as `undefined`. */
module Wrappers {

  datatype Option<+T> = None | Some(value: T)
}
