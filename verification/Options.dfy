/** A value that may be absent: a nil pointer, a failed lookup or an error return. */
module Options {
  datatype Option<+T> = None | Some(value: T)
}
