/** A value that may be missing: an element `getElementById` did not find,
    a storage key that is not set, `NaN` out of `parseInt`. */
module Wrappers {
  datatype Option<+T> = None | Some(value: T)
}
