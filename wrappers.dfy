/** Optional values, used where the server returns NULL for "absent". */
module Wrappers {

  datatype Option<+T> = None | Some(value: T)
}
