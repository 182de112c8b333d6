/** A value that may be missing: Go's nil results and returned errors. */
module Options {
  datatype Option<+T> = None | Some(value: T)
}
