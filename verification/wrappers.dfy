/** Optional values: Go's nil pointer, nil error and "not found" all become None. */
module Wrappers {

  datatype Option<+T> = None | Some(value: T)
}
