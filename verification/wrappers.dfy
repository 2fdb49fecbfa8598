/** An optional value, shared by the shell model. */
module Wrappers {

  /** An optional value: stands for the C code's NULL results and "-1 means absent" indices. */
  datatype Option<+T> = None | Some(value: T)
}
