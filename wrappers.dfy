/** Optional values, used where the driver either has something or has nothing. */
module Wrappers {

  datatype Option<+T> = None | Some(value: T)
}
