/** Optional values, standing in for Python's `None` and for JSON keys that may be absent. */
module Wrappers {

  datatype Option<+T> = None | Some(value: T)
}
