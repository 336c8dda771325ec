/** Optional values, used for fields a fetched record may lack and for
    lookups that can fail. */
module Wrappers {
  datatype Option<+T> = None | Some(value: T)
}
