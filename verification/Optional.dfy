/** A value that may be absent, shared by all components. */
module Optional {
  datatype Option<+T> = None | Some(value: T)
}
