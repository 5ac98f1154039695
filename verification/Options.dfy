/** A value that may be missing: a null pointer, an empty result. */
module Options {
  datatype Option<+T> = None | Some(value: T)
}
