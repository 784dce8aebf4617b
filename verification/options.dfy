/** An optional value: `None` stands for a Python exception that the caller does not catch. */
module Options {
  datatype Option<T> = None | Some(value: T)
}
