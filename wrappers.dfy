/** Optional values: Ruby's `nil` for an attribute that was never set. */
module Wrappers {

  datatype Option<+T> = None | Some(value: T)
}
