/** Optional values: used for a key that may be absent from a record and for
    "no signal". */
module Wrappers {

  datatype Option<+T> = None | Some(value: T)
}
