/** Optional values: a Go interface that may be nil, or a call that may panic. */
module Wrappers {

  datatype Option<+T> = None | Some(value: T)
}
