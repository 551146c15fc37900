/** The optional value used for Python's "may raise" conversions. */
module Wrappers {

  datatype Option<+T> = None | Some(value: T)
}
