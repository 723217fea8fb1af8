/** The optional value used wherever the source either produces something or fails. */
module Wrappers {
  datatype Option<T> = None | Some(value: T)
}
