/** The optional value used for spreadsheet cells and for "no match" results. */
module Options {

  datatype Option<+T> = None | Some(value: T)

}
