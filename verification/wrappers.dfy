/** The optional value used for fields the process table may not provide. */
module Wrappers {

  datatype Option<+T> = None | Some(value: T)

}
