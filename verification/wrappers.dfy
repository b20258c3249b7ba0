/** The option type used wherever the source returns `null`, `undefined` or `None`. */
module Wrappers {
  datatype Option<+T> = None | Some(value: T)
}
