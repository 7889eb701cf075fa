/** The conventional Some/None datatype, standing for a possibly-null C pointer. */
module Wrappers {
  datatype Option<+T> = None | Some(value: T)
}
