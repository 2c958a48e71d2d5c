/** Small value types shared by every module. */
module Prelude {
  datatype Option<+T> = None | Some(value: T)

  newtype byte = b: int | 0 <= b < 256
}
