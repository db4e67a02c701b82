/** The optional value used for every `Option<T>` of the crate. */
module Wrappers {
  datatype Option<T> = None | Some(value: T)
}
