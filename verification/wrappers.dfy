/** The optional value used wherever a pattern may fail to match. */
module Wrappers {

  datatype Option<+T> = None | Some(value: T)
}
