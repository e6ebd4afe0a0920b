/** The optional value used where the source returns null/None or an absent index. */
module Wrappers {
  datatype Option<+T> = None | Some(value: T)
}
