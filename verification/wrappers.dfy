/** Optional values: Go's nil error and "no owner reference yet" both become None. */
module Wrappers {
  datatype Option<+T> = None | Some(value: T)
}
