/** Python's `None`-or-value, used for every optional field and every lookup that can fail. */
module Wrappers {

  datatype Option<+T> = None | Some(value: T)
}
