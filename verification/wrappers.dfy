/** An optional value: stands for a missing field or a NaN entry of a column. */
module Wrappers {

  datatype Option<+T> = None | Some(value: T)
}
