/** The optional value used for "no best rate yet", "never crosses" and similar absences. */
module Options {

  datatype Option<+T> = None | Some(value: T)
}
