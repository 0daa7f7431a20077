/** A value that may be absent: an undefined field, a missing map entry, a file that is not there. */
module Options {
  datatype Option<+T> = None | Some(value: T)
}
