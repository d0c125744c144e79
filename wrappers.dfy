/** A value that may be absent: a missing form field, a NULL from SQL. */
module Wrappers {

  datatype Option<+T> = None | Some(value: T)
}
