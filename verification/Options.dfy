/** The optional value used throughout for the source's `None`. */
module Options {
  datatype Option<+T> = None | Some(value: T)
}
