/** Optional values: a JSON key that is absent (or null) is `None`. */
module Wrappers {

  datatype Option<+T> = None | Some(value: T)
}
