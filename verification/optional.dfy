/** The optional value used wherever the Swift source has an `Optional`. */
module Optional {

  datatype Option<+T> = None | Some(value: T)

}
