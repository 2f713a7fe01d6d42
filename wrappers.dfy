/** The Option type used wherever the source returns a value or `false`/`undefined`/`null`. */
module Wrappers {

  datatype Option<+T> = None | Some(value: T)
}
