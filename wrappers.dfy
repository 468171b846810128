/** The optional value used where the viewer's JavaScript uses `null`. */
module Wrappers {
  datatype Option<+T> = None | Some(value: T)
}
