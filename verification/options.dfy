/** An optional value: stands for JavaScript's `undefined` fields and for
    a computation that yields no number. */
module Options {
  datatype Option<+T> = None | Some(value: T)
}
