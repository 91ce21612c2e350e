/** Optional values: a prompt answer, an unset `visible` flag, a missing editing index. */
module Wrappers {
  datatype Option<+T> = None | Some(value: T)
}
