/** Optional values: a parse that may fail, a search that may find nothing. */
module Wrappers {

  datatype Option<+T> = None | Some(value: T)
}
