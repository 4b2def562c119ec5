/** The optional value used for lookups that may find nothing and for the worker's
    result payload, which is absent on failure. */
module Wrappers {
  datatype Option<+T> = None | Some(value: T)
}
