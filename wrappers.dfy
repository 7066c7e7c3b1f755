/** The optional value shared by the modules that read something back. */
module Wrappers {
  datatype Option<T> = None | Some(value: T)
}
