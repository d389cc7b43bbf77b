/** The optional value used for JavaScript's `undefined` and for operations that may fail. */
module Wrappers {

  datatype Option<+T> = None | Some(value: T)
}
