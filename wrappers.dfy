/** The optional value used for a Python call that either yields a value or fails. */
module Wrappers {

  datatype Option<+T> = None | Some(value: T)
}
