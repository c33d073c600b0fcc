/** An optional value: the model's stand-in for JavaScript's `undefined` results. */
module Wrappers {

  datatype Option<+T> = None | Some(value: T)

}
