/** Types shared by the models. */
module Basics {

  /** A value that may be absent: a nil pointer, a missing JSON field, a failed lookup. */
  datatype Option<T> = None | Some(value: T)

  type byte = x: int | 0 <= x < 256
}
