/** The Some/None datatype used wherever a Python call can raise instead of
    returning a value. */
module Options {

  datatype Option<+T> = None | Some(value: T)
}
