/** A value that may be missing: Go's nil results, zero times and `ok` flags. */
module Options {
  datatype Option<T> = None | Some(value: T)
}
