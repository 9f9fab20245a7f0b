/** The Option type used for Python's `next(..., None)` lookups. */
module Wrappers {

  datatype Option<+T> = None | Some(value: T)
}
