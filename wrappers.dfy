/** The optional-value datatype used for fields that may not be set yet. */
module Wrappers {

  datatype Option<+T> = None | Some(value: T)
}
