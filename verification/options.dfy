/** The optional value returned by `Unit::convert` and by `UNITS.get`. */
module Options {

  datatype Option<+T> = None | Some(value: T)
}
