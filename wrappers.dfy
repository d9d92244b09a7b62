/** Optional values: an absent DOM attribute, an unset strength indicator. */
module Wrappers {
  datatype Option<+T> = None | Some(value: T)
}
