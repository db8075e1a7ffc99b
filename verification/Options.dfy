module Options {
  /** Go's values that may be nil and the value-or-error results whose error text does not matter. */
  datatype Option<+T> = None | Some(value: T)
}
