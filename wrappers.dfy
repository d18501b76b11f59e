/** The absent-or-present value used wherever the source passes `null`/`nil`/`undefined`. */
module Wrappers {

  datatype Option<+T> = None | Some(value: T)
}
