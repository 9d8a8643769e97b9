/** Values that may be absent (the sources' null and undefined). */
module Options {
  datatype Option<+T> = None | Some(value: T)
}
