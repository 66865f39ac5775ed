/** The optional value used for "no such index" and "not a message". */
module Wrappers {

  datatype Option<+T> = None | Some(value: T)
}
