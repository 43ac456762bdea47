/** The optional-value datatype shared by the calculator modules. */
module Wrappers {

  datatype Option<+T> = None | Some(value: T)
}
