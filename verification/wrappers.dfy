/** The optional value used wherever a JavaScript expression can yield `undefined` or `NaN`. */
module Wrappers {
  datatype Option<+T> = None | Some(value: T)
}
