module Options {
  /** A value that may be missing: a null pointer, an undefined result. */
  datatype Option<+T> = None | Some(value: T)
}
