/** Facts and functions that belong to no part of the program. */
module Basics {

  function Max(a: int, b: int): int {
    if a < b then b else a
  }

  lemma Associates<T>(x: seq<T>, y: seq<T>, z: seq<T>)
    ensures (x + y) + z == x + (y + z)
  {
  }
}
