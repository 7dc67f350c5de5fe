/** The optional value used for the window's previous cursor position and for
    a buffer operation that can fail. */
module Wrappers {

  datatype Option<+T> = None | Some(value: T)
}
