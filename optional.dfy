/** The optional value used where the source has `undefined` or `null`. */
module Optional {

  datatype Option<+T> = None | Some(value: T)
}
