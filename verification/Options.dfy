/** The optional value that several components answer with. */
module Options {
  datatype Option<+T> = None | Some(value: T)
}
