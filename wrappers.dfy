/** The optional value used for "a scroll command, if any" and "a label, if shown". */
module Wrappers {

  datatype Option<+T> = None | Some(value: T)
}
