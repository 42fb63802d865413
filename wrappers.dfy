/** The optional value used for the source's `Option` and for operations that panic. */
module Wrappers {

  /** `None` stands for "no value" or, where a doc comment says so, for a panic of the program. */
  datatype Option<+T> = None | Some(value: T)
}
