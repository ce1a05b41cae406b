/** The optional value used wherever the parser keeps a field that may not have been set yet. */
module Options {

  /** A value that is either absent or present. */
  datatype Option<+T> = None | Some(value: T)
}
