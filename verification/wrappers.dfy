/** Optional values: the model's counterpart of Kotlin's nullable types. */
module Wrappers {
  datatype Option<+T> = None | Some(value: T)
}
