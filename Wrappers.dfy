/** The optional-value type used for the "(value, ok)" returns of the Go code. */
module Wrappers {

  datatype Option<+T> = None | Some(value: T)

}
