/** A value that may be missing: a NULL, a failed query, an object that is not there. */
module Options {

  datatype Option<+T> = None | Some(value: T)
}
