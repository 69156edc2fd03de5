/** Optional values, used where the programs either produce a file or leave it alone. */
module Wrappers {
  datatype Option<+T> = None | Some(value: T)
}
