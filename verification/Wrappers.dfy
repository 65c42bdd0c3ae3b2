/** The failure-compatible result type shared by the modules of this project. */
module Wrappers {

  /** A value, or the absence of one (the program's `false`, NULL or error return). */
  datatype Option<+T> = None | Some(value: T)
}
