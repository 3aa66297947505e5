/** Optional values, as the source's nullable pointers and columns. */
module Wrappers {
  datatype Option<+T> = None | Some(value: T)
}
