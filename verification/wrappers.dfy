/** Optional values: a TypeScript field that may be `undefined`. */
module Wrappers {

  datatype Option<+T> = None | Some(value: T)
}
