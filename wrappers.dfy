/** Optional values: a document field that may be absent or null, a query that may find nothing. */
module Wrappers {

  datatype Option<+T> = None | Some(value: T)
}
