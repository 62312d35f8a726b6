/** Optional values: a request-body field that may be absent, a nullable column. */
module Wrappers {
  datatype Option<+T> = None | Some(value: T)
}
