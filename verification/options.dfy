/** The optional value used for the dashboard's `?:` fields and `undefined` arguments. */
module Options {

  datatype Option<+T> = None | Some(value: T)
}
