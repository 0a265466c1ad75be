/** Optional values: a JavaScript `undefined` capture group or option. */
module Wrappers {
  datatype Option<+T> = None | Some(value: T)
}
