/** Optional values: Go's nil-able `error` interface, seen as "an error or nothing". */
module Wrappers {

  datatype Option<+T> = None | Some(value: T)

}
