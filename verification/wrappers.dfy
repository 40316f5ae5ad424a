/** A value that may be absent: C#'s `null` reference or an empty `int?`. */
module Wrappers {
  datatype Option<T> = None | Some(value: T)
}
