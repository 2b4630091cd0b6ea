/** Optional values: a conversion that may fail, a selection that may be empty. */
module Wrappers {

  datatype Option<+T> = None | Some(value: T)
}
