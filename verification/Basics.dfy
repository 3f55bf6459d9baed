/** What several modules share. */
module Basics {

  datatype Option<T> = None | Some(value: T)

  type Byte = n: nat | n < 256

  function Min(a: int, b: int): int {
    if a <= b then a else b
  }

  lemma Assoc<T>(a: seq<T>, b: seq<T>, c: seq<T>)
    ensures a + b + c == a + (b + c)
  {
  }
}
