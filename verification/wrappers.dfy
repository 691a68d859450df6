/** The null-or-object results of the parser and the code generator. */
module Wrappers {
  datatype Option<+T> = None | Some(value: T)
}
