/** The optional value used for JavaScript's "value or undefined". */
module Wrappers {

  datatype Option<+T> = None | Some(value: T)
}
