/** The optional value an external parser hands back: a document, or nothing when it fails. */
module Wrappers {

  datatype Option<+T> = None | Some(value: T)
}
