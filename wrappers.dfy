/** Optional values: Kotlin's nullable references (`String?`, `AudioRecord?`). */
module Wrappers {
  datatype Option<+T> = None | Some(value: T)
}
