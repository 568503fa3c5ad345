/** Optional values, used for the places where the Go code returns nil or
    fails. */
module Wrappers {

  datatype Option<+T> = None | Some(value: T)
}
