/** The usual optional value, for "no next node" and "the field was not edited". */
module Options {
  datatype Option<+T> = None | Some(value: T)
}
