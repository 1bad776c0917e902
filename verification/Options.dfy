/** A value that may be absent: null, undefined or Rust's Option. */
module Options {
  datatype Option<+T> = None | Some(value: T)
}
