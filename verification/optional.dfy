/** A value that may be absent: JavaScript's `null` for a missing attribute or element. */
module Optional {

  datatype Option<+T> = None | Some(value: T)
}
