/** The optional value used for JavaScript's `undefined` on a missing property. */
module Wrappers {

  datatype Option<+T> = None | Some(value: T)

}
