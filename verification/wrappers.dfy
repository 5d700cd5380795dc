/** Optional values: the model's reading of a Go pointer that may be nil. */
module Wrappers {

  datatype Option<+T> = None | Some(value: T)

}
