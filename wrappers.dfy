/** A value that may be missing: the model of a JavaScript property that is `undefined`. */
module Wrappers {
  datatype Option<+T> = None | Some(value: T)
}
