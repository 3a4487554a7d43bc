/** An optional value, standing for JavaScript's `undefined`/`null` results. */
module Opt {
  datatype Option<+T> = None | Some(value: T)
}
