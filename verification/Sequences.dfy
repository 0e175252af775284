/** Sequences of equal elements. */
module Sequences {
  function Repeat<T>(n: nat, x: T): (s: seq<T>)
    ensures |s| == n
  {
    seq(n, _ => x)
  }

  lemma RepeatGrows<T>(n: nat, x: T)
    requires n > 0
    ensures Repeat(n, x) == Repeat(n - 1, x) + [x]
  {
  }
}
