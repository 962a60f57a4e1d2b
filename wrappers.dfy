/** The optional value returned where the source returns a number or `None`. */
module Wrappers {

  datatype Option<+T> = None | Some(value: T)
}
