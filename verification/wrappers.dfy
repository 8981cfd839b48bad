/** Optional values, standing in for the nullable pointers the program returns. */
module Wrappers {

  /** `None` plays the part of `nullptr`; `Some(v)` is a pointer to `v`. */
  datatype Option<+T> = None | Some(value: T)
}
