/** Optional values, used for parse results and "no scale chosen". */
module Wrappers {
  datatype Option<+T> = None | Some(value: T)
}
