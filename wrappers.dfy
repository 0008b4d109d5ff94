/** Optional values, for the source's null returns and failed lookups. */
module Wrappers {

  datatype Option<T> = None | Some(value: T)
}
