/** Optional values: a Go `nil` pointer result, or "no match found". */
module Wrappers {
  datatype Option<+T> = None | Some(value: T)
}
