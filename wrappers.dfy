/** Python's None-or-value, used for optional fields, lookups and failed recognitions. */
module Wrappers {

  datatype Option<+T> = None | Some(value: T)
}
