/** A value that may be missing: a NULL pointer, an absent part of a directive. */
module Options {
  datatype Option<T> = None | Some(value: T)
}
