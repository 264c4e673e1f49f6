/** A value that may be missing: a nil pointer or an absent field. */
module Options {
  datatype Option<+T> = None | Some(value: T)
}
