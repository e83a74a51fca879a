/** A value or none, for the results and the inputs that may be missing. */
module Options {
  datatype Option<+T> = None | Some(value: T)
}
