/** The usual present-or-absent wrapper, used for Go's nil-able values
    (a nil error, a nil handler, a nil flag set). */
module Optional {

  datatype Option<+T> = None | Some(value: T)
}
