/** An optional value: a missing CSV cell, a missing source file, a failed model call. */
module Wrappers {

  datatype Option<+T> = None | Some(value: T)

}
