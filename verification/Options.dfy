/** An optional value, as the source returns through pointers that may be null. */
module Options {
  datatype Option<+T> = None | Some(value: T)
}
