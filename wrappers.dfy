/** The optional value used wherever the source has `undefined` or a missing entry. */
module Wrappers {

  datatype Option<+T> = None | Some(value: T)

}
