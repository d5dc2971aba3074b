/** A value that may be absent: Python's `None` (or `False`) versus a value. */
module Optional {

  datatype Option<+T> = None | Some(value: T)

  /** Errors Python raises on the paths the add-ons do not guard. */
  datatype Error =
    | EmptySeparator  // `str.split("")` raises ValueError
    | UndefinedName   // a reference to a name that was never bound raises NameError
}
