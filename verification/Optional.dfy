/** A value that may be absent: a SQL NULL, an unset setting, Python's None, a refused computation. */
module Optional {

  datatype Maybe<+T> = None | Some(value: T)
}
