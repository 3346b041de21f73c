/** Optional values, used wherever the runtime stores `null` or an absent field. */
module Wrappers {
  datatype Option<+T> = None | Some(value: T)
}
