/** Option, used for Go's nil results and for the optional parts of the model. */
module Wrappers {
  datatype Option<+T> = None | Some(value: T)
}
