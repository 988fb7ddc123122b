/** Datatypes shared by the components of the traffic generator. */
module Common {

  /** A value that may be absent: a Go `error` that may be nil, a call that may not happen. */
  datatype Option<+T> = None | Some(value: T)
}
