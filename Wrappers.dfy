/** An optional value, for results the source reports as `undefined`. */
module Wrappers {
  datatype Option<T> = None | Some(value: T)
}
