/** An optional value, used where the pages either accept or reject an input. */
module Options {

  datatype Option<+T> = None | Some(value: T)

}
