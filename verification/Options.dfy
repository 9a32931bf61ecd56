/** A value that may be missing, as the program's null references and failed lookups. */
module Options {

  datatype Option<+T> = None | Some(value: T)
}
