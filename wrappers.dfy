/** Optional values, standing for the nil-able pointers and absent values of the source. */
module Wrappers {
  datatype Option<+T> = None | Some(value: T)
}
