/** Optional values, used for nullable pointers and empty slots throughout the model. */
module Wrappers {
  datatype Option<+T> = None | Some(value: T)
}
