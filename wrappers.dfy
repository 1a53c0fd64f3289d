/** Optional values: Python's `None` and the failures that carry no detail. */
module Wrappers {

  datatype Option<+T> = None | Some(value: T)
}
