/** The optional value used wherever the source yields "nothing" or a value. */
module Wrappers {

  datatype Option<+T> = None | Some(value: T)
}
