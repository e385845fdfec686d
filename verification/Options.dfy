/** A value that may be missing: a nullable column or argument. */
module Options {
  datatype Option<+T> = None | Some(value: T)
}
