/** An optional value: what the source writes as a nil pointer or a second boolean result. */
module Options {
  datatype Option<+T> = None | Some(value: T)
}
