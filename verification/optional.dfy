/** A value that may be absent: a missing attribute, a missing JSON field. */
module Optional {

  datatype Option<+T> = None | Some(value: T)

}
