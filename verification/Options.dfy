/** The nullable columns and pointers of the source. */
module Options {
  datatype Option<+T> = None | Some(value: T)
}
