/** Optional values: JavaScript's `undefined` for a missing field or a failed lookup. */
module Wrappers {
  datatype Option<+T> = None | Some(value: T)
}
