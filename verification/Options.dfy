/** A value that may be missing: a null pointer, an end iterator, an empty `optional`. */
module Options {
  datatype Option<T> = None | Some(value: T)
}
