/** The optional values used throughout the model (Python's `T | None`). */
module Options {

  datatype Option<+T> = None | Some(value: T)
}
