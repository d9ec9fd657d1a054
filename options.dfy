/** An optional value: JavaScript's `undefined`/`null` as opposed to a present value. */
module Options {

  datatype Option<+T> = None | Some(value: T)
}
