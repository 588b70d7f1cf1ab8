/** Optional values, used for the fields a stored record may omit and for
    results that can be absent. */
module Wrappers {

  datatype Option<+T> = None | Some(value: T)
}
