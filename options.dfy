/** Rust's `Option`, used wherever the source has an optional value. */
module Options {
  datatype Option<+T> = None | Some(value: T)
}
