/** The optional value that stands for a C pointer that may be NULL, or a step that may abort. */
module Wrappers {

  datatype Option<+T> = None | Some(value: T)
}
