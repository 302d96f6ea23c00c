// JavaScript's `undefined` (and `null` where the code treats it alike) as a value.
module Options {
  datatype Option<+T> = None | Some(value: T)
}
