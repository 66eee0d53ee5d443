/** A value that may be missing: a NULL pointer, or a call that failed. */
module Options {
  datatype Option<+T> = None | Some(value: T)
}
