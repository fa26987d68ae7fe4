/** Optional values, used for Go's nil-or-value results (an `error`, a decoded value). */
module Wrappers {

  datatype Option<+T> = None | Some(value: T)
}
