/** The usual Some/None wrapper, used where a Python call can raise ValueError
    or ZeroDivisionError and the caller catches it. */
module Optional {

  datatype Option<+T> = None | Some(value: T)

}
