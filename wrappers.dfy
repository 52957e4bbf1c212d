/** Optional values: the `?` fields of the records and JavaScript's `undefined`. */
module Wrappers {

  datatype Option<T> = None | Some(value: T)
}
