/** A value that may be missing: a nil pointer, or a zero time that says there is none. */
module Options {
  datatype Option<+T> = None | Some(value: T)
}
