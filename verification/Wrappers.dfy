module Wrappers {
  datatype Option<+T> = None | Some(value: T)

  /** What a Python call gives back: a value, or an exception. */
  datatype Outcome<+T> = Value(value: T) | Raises
}
