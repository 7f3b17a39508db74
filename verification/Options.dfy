/** A value or none: how the model writes a pointer that may be NULL. */
module Options {
  datatype Option<T> = None | Some(value: T)
}
