/** A small optional-value datatype, for table look-ups that may miss. */
module Options {

  datatype Option<T> = None | Some(value: T)
}
