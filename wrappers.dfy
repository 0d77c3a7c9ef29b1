/** Optional values: JavaScript's `undefined` and the "not found" results of the source. */
module Wrappers {
  datatype Option<+T> = None | Some(value: T)
}
