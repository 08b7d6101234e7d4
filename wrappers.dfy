/** Optional values: a missing dictionary key, a NULL column, a lookup that
    raised and was swallowed. */
module Wrappers {

  datatype Option<+T> = None | Some(value: T)
}
