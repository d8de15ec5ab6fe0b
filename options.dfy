/** The optional value used for "no label": Python's `None` beside an int. */
module Options {
  datatype Option<+T> = None | Some(value: T)
}
