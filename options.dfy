/** An optional value: the Python code's `None` returns and caught exceptions. */
module Options {
  datatype Option<T> = None | Some(value: T)
}
