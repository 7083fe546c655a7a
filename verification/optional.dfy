/** The usual Some/None datatype, used for JSON fields that may be absent. */
module Optional {

  datatype Option<+T> = None | Some(value: T)

}
