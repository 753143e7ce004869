/** Values that several modules share. */
module Common {
  datatype Option<+T> = None | Some(value: T)
}
