/** An optional value: a reference that may be null in the source. */
module Options {
  datatype Option<T> = None | Some(value: T)
}
