/** An optional value, as several modules need it. */
module Options {
  datatype Option<+T> = None | Some(value: T)
}
