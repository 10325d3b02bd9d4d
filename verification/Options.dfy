/** A value that may be missing, as Python's `None` or a key that a dictionary lacks. */
module Options {
  datatype Option<+T> = None | Some(value: T)
}
