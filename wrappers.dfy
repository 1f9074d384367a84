/** Option, the model's stand-in for a value that may be `null` or `undefined`. */
module Wrappers {
  datatype Option<+T> = None | Some(value: T)
}
