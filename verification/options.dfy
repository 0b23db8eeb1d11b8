/** The optional-value datatype used by the scanner and the prompt loops. */
module Options {

  datatype Option<+T> = None | Some(value: T)
}
