/** A value that may be absent: a nullable column, a missing row, an empty result. */
module Options {
  datatype Option<+T> = None | Some(value: T)
}
