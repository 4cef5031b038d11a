/** Optional values, used for Go's `(value, ok)` and `(value, err)` results whose error is not inspected. */
module Wrappers {

  datatype Option<+T> = None | Some(value: T)

}
