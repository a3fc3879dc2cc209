/** Types that several modules share. */
module Wrappers {

  /** The result of an operation that may have none. */
  datatype Option<+T> = None | Some(value: T)

  type Byte = b: nat | b < 256
}
