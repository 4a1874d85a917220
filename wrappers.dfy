/** Rust's `Option<T>`, as returned by the ring buffer's `first` and `last`. */
module Wrappers {
  datatype Option<+T> = None | Some(value: T)
}
