/** The optional value used wherever the script reads something that may be absent. */
module Options {

  datatype Option<+T> = None | Some(value: T)
}
