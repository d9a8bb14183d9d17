/** What several of the models share. */
module Basics {

  datatype Option<+T> = None | Some(value: T)

  newtype Byte = b: int | 0 <= b < 256

  lemma SmallMultiple(d: int, b: nat)
    requires 0 < d * b + b && d * b < b
    ensures d == 0
  {
  }
}
