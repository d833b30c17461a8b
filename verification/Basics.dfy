/** Types that several components share. */
module Basics {

  datatype Option<+T> = None | Some(value: T)

  type byte = n: int | 0 <= n < 256

  /** The result of a native call: zero, or a negative error code. */
  type Status = n: int | n <= 0
}
