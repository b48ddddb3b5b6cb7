/** The "value or nothing" result that JavaScript expresses with `undefined`. */
module Wrappers {
  datatype Option<+T> = None | Some(value: T)
}
