/** The optional values that the Rust source writes as `Option<T>`. */
module Options {
  datatype Option<+T> = None | Some(value: T)
}
