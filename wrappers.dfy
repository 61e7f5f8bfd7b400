/** An optional value: `None` for a missing result, `Some(v)` for a present one. */
module Wrappers {

  datatype Option<+T> = None | Some(value: T)

}
