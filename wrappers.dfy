/** Optional values: JavaScript's `undefined` for a field or an array slot that is not there. */
module Wrappers {

  datatype Option<+T> = None | Some(value: T)
}
