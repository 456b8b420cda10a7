/** Optional values: a JavaScript argument that may be `undefined`. */
module Wrappers {
  datatype Option<+T> = None | Some(value: T)
}
