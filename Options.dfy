/** The optional value used for JavaScript's `undefined` / "not found". */
module Options {
  datatype Option<+T> = None | Some(value: T)
}
