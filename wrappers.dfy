/** The optional value shared by the other modules: a lookup or a build
    step that may yield nothing. */
module Wrappers {
  datatype Option<T> = None | Some(value: T)
}
