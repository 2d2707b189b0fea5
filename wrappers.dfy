/** The optional value used wherever the source returns `None`, `null` or `undefined`. */
module Wrappers {

  datatype Option<+T> = None | Some(value: T)

}
