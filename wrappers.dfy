/** The optional value used for the source's `null` results and absent references. */
module Wrappers {
  datatype Option<+T> = None | Some(value: T)
}
