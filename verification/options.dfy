/** A minimal optional value, standing in for Python's `None`-or-value. */
module Options {

  datatype Option<+T> = None | Some(value: T)
}
