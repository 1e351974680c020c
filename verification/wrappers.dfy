/** Optional values: an empty form field, a cancelled prompt, a drag with no drop target. */
module Wrappers {

  datatype Option<+T> = None | Some(value: T)
}
