/** The optional value used for Python's `None` and JavaScript's `null`/`undefined` results. */
module Maybe {
  datatype Option<+T> = None | Some(value: T)
}
