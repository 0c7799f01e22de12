/** Notions that several modules share. */
module Basics {
  datatype Option<T> = None | Some(value: T)

  type Byte = b: int | 0 <= b < 256

  predicate Distinct<T(==)>(list: seq<T>) {
    forall i, j :: 0 <= i < j < |list| ==> list[i] != list[j]
  }
}
