/** A value that may be missing: a nullable reference or an `out` that a `Try...` call leaves unset. */
module Optional {

  datatype Option<+T> = None | Some(value: T)
}
