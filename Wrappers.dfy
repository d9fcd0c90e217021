/** Optional values: `null`/`undefined` results of the JavaScript code become `None`. */
module Wrappers {
  datatype Option<+T> = None | Some(value: T)
}
