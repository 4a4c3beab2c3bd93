/** Optional values: a C reference that may be NULL becomes an Option. */
module Wrappers {

  datatype Option<+T> = None | Some(value: T)
}
