/** The optional value used for JavaScript's `undefined` and for "not found". */
module Wrappers {

  datatype Option<+T> = None | Some(value: T)
}
