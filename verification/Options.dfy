module Options {
  /** A pointer or result that may be absent. */
  datatype Option<T> = None | Some(value: T)
}
