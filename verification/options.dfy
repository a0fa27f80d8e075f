/** The optional result the client returns in place of a value when a request fails (Python's None). */
module Options {
  datatype Option<+T> = None | Some(value: T)
}
