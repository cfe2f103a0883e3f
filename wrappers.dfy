/** Optional values, for fields that a JSON body may or may not carry and rows a lookup may not find. */
module Wrappers {

  datatype Option<+T> = None | Some(value: T)
}
