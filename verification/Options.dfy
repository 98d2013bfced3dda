/** A value that may be missing: null, Python's None, or a dictionary without the key. */
module Options {
  datatype Option<+T> = None | Some(value: T)
}
