/** An optional value, used wherever the source returns a nullable pointer,
  * a TOptional, a failed lookup or a weak pointer that may have gone stale. */
module Wrappers {
  datatype Option<T> = None | Some(value: T)
}
