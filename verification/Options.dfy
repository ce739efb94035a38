/** A value, or none: where the source stores a null pointer. */
module Options {
  datatype Option<T> = None | Some(value: T)
}
