/** The optional value used for nullable columns and missing rows. */
module Options {

  datatype Option<+T> = None | Some(value: T)
}
