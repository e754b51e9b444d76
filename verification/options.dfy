/** The usual Some/None wrapper, for values JavaScript leaves `undefined`. */
module Options {
  datatype Option<+T> = None | Some(value: T)
}
