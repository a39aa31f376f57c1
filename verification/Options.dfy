/** A value that may be missing: SQL's NULL, Go's nil. */
module Options {
  datatype Option<+T> = None | Some(value: T)
}
