/** The optional value used where the games return `null` or `undefined`. */
module Wrappers {
  datatype Option<T> = None | Some(value: T)
}
