/** Optional values: a key that `dict.get` may not find, a rule that may not match. */
module Wrappers {

  datatype Option<+T> = None | Some(value: T)
}
