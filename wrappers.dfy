/** The optional value used for the persisted slot and for display surfaces that may be missing. */
module Wrappers {

  datatype Option<+T> = None | Some(value: T)
}
