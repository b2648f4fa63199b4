/** An optional value: JavaScript's `undefined` versus a present value. */
module Common {

  datatype Option<+T> = None | Some(value: T)
}
