/** The absent-or-present value the other modules share (SQL NULL, "no row", Go nil). */
module Option {

  datatype Option<+T> = None | Some(value: T)
}
