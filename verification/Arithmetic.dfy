/** Division and remainder facts used across the models. */
module Arithmetic {

  /** Quotient and remainder are determined by x == q * m + k with k < m. */
  lemma DivModUnique(x: int, m: nat, q: int, k: nat)
    requires k < m && x == q * m + k
    ensures x / m == q && x % m == k
  {
    var q', k' := x / m, x % m;
    assert x == q' * m + k';
    assert (q' - q) * m == k - k';
    assert q' - q >= 1 ==> (q' - q) * m >= m;
    assert q' - q <= -1 ==> (q' - q) * m + m <= 0;
  }

  /** Reducing before adding changes nothing modulo m. */
  lemma ModAdd(x: nat, y: nat, m: nat)
    requires m > 0
    ensures (x % m + y) % m == (x + y) % m
  {
    var q, k := x / m, x % m;
    var q', k' := (k + y) / m, (k + y) % m;
    assert x + y == (q + q') * m + k';
    DivModUnique(x + y, m, q + q', k');
  }

  function Abs(x: int): nat { if x < 0 then -x else x }

  /** C division truncates toward zero. */
  function TruncDiv(a: int, b: int): int
    requires b > 0
  {
    if a < 0 then -((-a) / b) else a / b
  }

  predicate IsI32(x: int) { -0x8000_0000 <= x < 0x8000_0000 }

  /** A value computed in a signed 32-bit variable. */
  function I32(x: int): int
    requires IsI32(x)
  {
    x
  }

  /** A product, named so that its laws can be applied one at a time. */
  function Mul(x: int, y: int): int { x * y }

  lemma MulLaws(x: int, y: int, z: int)
    ensures Mul(x + y, z) == Mul(x, z) + Mul(y, z)
    ensures Mul(z, x + y) == Mul(z, x) + Mul(z, y)
    ensures Mul(1, x) == x && Mul(x, 1) == x && Mul(-1, x) == -x && Mul(0, x) == 0
  {
  }

  lemma MulGrows(k: nat, x: int, y: int)
    requires x <= y
    ensures Mul(k, x) <= Mul(k, y)
  {
  }

  lemma DivisionParts(a: nat, d: nat)
    requires d > 0
    ensures a == Mul(d, a / d) + a % d && 0 <= a % d < d
  {
  }
}
