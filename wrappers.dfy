/** The optional value used wherever the overlay reads a field that may be
    missing, not a number, or not an array. */
module Wrappers {

  datatype Option<+T> = None | Some(value: T)
}
