/** The optional value used where the application holds `null` or a value. */
module Optional {

  datatype Option<+T> = None | Some(value: T)
}
