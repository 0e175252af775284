/** The camera's running average: a circular window, a total and a weighted sum that are updated, never recomputed. */
module AvrCounter {
  import opened Arithmetic
  import opened Sequences

  const DIVIDER := 256

  function Sum(w: seq<int>): int {
    if w == [] then 0 else Sum(w[..|w| - 1]) + w[|w| - 1]
  }

  lemma MulDivider(k: int, x: int)
    ensures k * (x * DIVIDER) == DIVIDER * Mul(k, x) == Mul(k, DIVIDER * x) == (x * DIVIDER) * k
  {
  }

  /** Position times value, oldest value at position 0. */
  function Weighted(w: seq<int>): int {
    if w == [] then 0 else Weighted(w[..|w| - 1]) + Mul(|w| - 1, w[|w| - 1])
  }

  /** 1 + 2 + ... + n. */
  function Triangle(n: nat): (t: nat)
    ensures t >= n
  {
    if n == 0 then 0 else Triangle(n - 1) + n
  }

  /** The last n values, the first value standing in for those before it. */
  function Window(n: nat, h: seq<int>): (w: seq<int>)
    requires h != []
    ensures |w| == n
  {
    (Repeat(n, h[0]) + h[1..])[|h| - 1..]
  }

  /** The weighted sum over a history: the first value keeps weight n for ever, whatever has left the window. */
  function Num(n: nat, h: seq<int>): int
    requires h != []
  {
    Mul(n, h[0]) + Weighted(Window(n, h))
  }

  /** A new value pushes out the oldest. */
  lemma WindowSlides(n: nat, h: seq<int>, v: int)
    requires h != [] && n > 0
    ensures Window(n, h + [v]) == Window(n, h)[1..] + [v]
  {
    assert (h + [v])[1..] == h[1..] + [v];
  }

  lemma {:induction false} DropOldest(w: seq<int>)
    requires w != []
    ensures Weighted(w[1..]) == Weighted(w) - (Sum(w) - w[0])
    ensures Sum(w[1..]) == Sum(w) - w[0]
  {
    hide Mul;
    MulLaws(0, 0, w[0]);
    if |w| == 1 {
      assert w[..0] == [];
    } else {
      var front, last := w[..|w| - 1], w[|w| - 1];
      assert w[1..][..|w| - 2] == front[1..];
      DropOldest(front);
      MulLaws(|w| - 2, 1, last);
      MulLaws(last, 0, 0);
    }
  }

  lemma Appended(w: seq<int>, v: int)
    ensures Sum(w + [v]) == Sum(w) + v && Weighted(w + [v]) == Weighted(w) + Mul(|w|, v)
  {
    hide Mul;
    assert (w + [v])[..|w|] == w;
  }

  /** Both running quantities follow from their old values, the new value and the one it replaces. */
  lemma Slide(w: seq<int>, v: int)
    requires w != []
    ensures var next := w[1..] + [v]; var total := Sum(w) + (v - w[0]);
            Sum(next) == total && Weighted(next) == Weighted(w) + Mul(|w|, v) - total
  {
    hide Mul;
    DropOldest(w);
    Appended(w[1..], v);
    MulLaws(|w| - 1, 1, v);
    MulLaws(v, 0, 0);
  }

  lemma {:induction false} Filled(n: nat, v: int)
    ensures Sum(Repeat(n, v)) == Mul(n, v) && Mul(n, v) + Weighted(Repeat(n, v)) == Mul(Triangle(n), v)
  {
    hide Mul;
    MulLaws(v, 0, 0);
    if n > 0 {
      hide Repeat, Sum, Weighted;
      Filled(n - 1, v);
      RepeatGrows(n, v);
      Appended(Repeat(n - 1, v), v);
      MulLaws(n - 1, 1, v);
      MulLaws(Triangle(n - 1), n, v);
    }
  }

  ghost predicate Within(w: seq<int>, lo: int, hi: int) {
    forall k | 0 <= k < |w| :: lo <= w[k] <= hi
  }

  lemma {:induction false} HullOfSums(w: seq<int>, lo: int, hi: int)
    requires Within(w, lo, hi)
    ensures Mul(|w|, lo) <= Sum(w) <= Mul(|w|, hi)
    ensures Mul(Triangle(|w|), lo) <= Mul(|w|, lo) + Weighted(w)
    ensures Mul(|w|, hi) + Weighted(w) <= Mul(Triangle(|w|), hi)
  {
    hide Mul;
    MulLaws(lo, 0, 0);
    MulLaws(hi, 0, 0);
    if w != [] {
      var front, k, last := w[..|w| - 1], |w| - 1, w[|w| - 1];
      HullOfSums(front, lo, hi);
      MulGrows(k, lo, last);
      MulGrows(k, last, hi);
      MulLaws(k, 1, lo);
      MulLaws(k, 1, hi);
      MulLaws(Triangle(k), |w|, lo);
      MulLaws(Triangle(k), |w|, hi);
    }
  }

  lemma WindowWithin(n: nat, h: seq<int>, lo: int, hi: int)
    requires h != [] && Within(h, lo, hi)
    ensures Within(Window(n, h), lo, hi)
  {
    var all := Repeat(n, h[0]) + h[1..];
    forall k | 0 <= k < n ensures lo <= Window(n, h)[k] <= hi {
      assert Window(n, h)[k] == all[|h| - 1 + k];
    }
  }

  /** The weights are nonnegative and add up to the divisor: the weighted sum stays in the hull of the values. */
  lemma NumInHull(n: nat, h: seq<int>, lo: int, hi: int)
    requires h != [] && Within(h, lo, hi)
    ensures Mul(Triangle(n), lo) <= Num(n, h) <= Mul(Triangle(n), hi)
  {
    hide Mul;
    WindowWithin(n, h, lo, hi);
    HullOfSums(Window(n, h), lo, hi);
    MulGrows(n, lo, h[0]);
    MulGrows(n, h[0], hi);
  }

  function Clamp(x: int): nat { if x < 0 then 0 else x }

  /** What the counter shows for a history. */
  function Shown(n: nat, h: seq<int>): nat
    requires h != [] && n > 0
  {
    Clamp(TruncDiv(DIVIDER * Num(n, h), Triangle(n)))
  }

  lemma QuotientBetween(a: int, d: nat, lo: int, hi: int)
    requires d > 0 && Mul(d, lo) <= a <= Mul(d, hi)
    ensures Clamp(lo) <= Clamp(TruncDiv(a, d)) <= Clamp(hi)
  {
    if a >= 0 {
      DivisionParts(a, d);
      var q := a / d;
      hide Mul;
      if q < lo { MulGrows(d, q + 1, lo); MulLaws(q, 1, d); MulLaws(d, 0, 0); }
      if q > hi { MulGrows(d, hi + 1, q); MulLaws(hi, 1, d); MulLaws(d, 0, 0); }
    } else {
      NegativeQuotient(a, d);
      hide Mul;
      MulLaws(d, 0, 0);
      if lo > 0 { MulGrows(d, 1, lo); }
    }
  }

  lemma NegativeQuotient(a: int, d: nat)
    requires d > 0 && a < 0
    ensures TruncDiv(a, d) <= 0
  {
    var q := (-a) / d;
    assert q >= 0;
  }

  /** The value shown lies between the least and the greatest value added since the reset, negative ones counting as
      zero. */
  lemma ShownBetween(n: nat, h: seq<int>, lo: int, hi: int)
    requires h != [] && n > 0 && Within(h, lo, hi)
    ensures Clamp(lo) <= Shown(n, h) / DIVIDER <= Clamp(hi)
  {
    hide Mul, TruncDiv, Num;
    NumInHull(n, h, lo, hi);
    MulDivider(Triangle(n), lo);
    MulDivider(Triangle(n), hi);
    QuotientBetween(DIVIDER * Num(n, h), Triangle(n), DIVIDER * lo, DIVIDER * hi);
  }

  /** The average does not forget its first value: once the window holds c alone, it shows a mixture of the first value,
      with weight n, and c, and no further c changes it. */
  lemma FirstValueStays(n: nat, h: seq<int>, c: int)
    requires h != [] && n > 0 && Window(n, h) == Repeat(n, c)
    ensures Num(n, h) == Mul(n, h[0]) + Mul(Triangle(n) - n, c)
    ensures Num(n, h + [c]) == Num(n, h)
  {
    hide Mul;
    Filled(n, c);
    MulLaws(Triangle(n) - n, n, c);
    WindowSlides(n, h, c);
    assert Repeat(n, c)[1..] + [c] == Repeat(n, c);
    assert (h + [c])[0] == h[0];
  }

  lemma FirstShown(n: nat, v: int)
    requires n > 0
    ensures Window(n, [v]) == Repeat(n, v) && Sum(Window(n, [v])) == Mul(n, v) && Num(n, [v]) == Mul(Triangle(n), v)
    ensures Shown(n, [v]) == Clamp(DIVIDER * v)
  {
    Filled(n, v);
    assert Window(n, [v]) == Repeat(n, v);
    ExactQuotient(Triangle(n), v);
  }

  lemma ExactQuotient(d: nat, v: int)
    requires d > 0
    ensures TruncDiv(DIVIDER * Mul(d, v), d) == DIVIDER * v
  {
    MulDivider(d, v);
    var x := DIVIDER * v;
    if x >= 0 {
      DivModUnique(Mul(d, x), d, x, 0);
    } else {
      DivModUnique(-Mul(d, x), d, -x, 0);
    }
  }

  lemma NextNum(n: nat, h: seq<int>, v: int)
    requires h != [] && n > 0
    ensures var w, next := Window(n, h), Window(n, h + [v]);
            && next == w[1..] + [v] && Sum(next) == Sum(w) + (v - w[0])
            && Num(n, h + [v]) == Num(n, h) + Mul(n, v) - Sum(next)
  {
    hide Mul;
    Slide(Window(n, h), v);
    WindowSlides(n, h, v);
    assert (h + [v])[0] == h[0];
  }

  /** Overwriting the oldest cell of a circular buffer and stepping on slides the window it holds. */
  lemma Rotated(old_values: seq<int>, pos: nat, w: seq<int>, value: int)
    requires pos < |old_values| && old_values[pos..] + old_values[..pos] == w
    ensures old_values[pos] == w[0]
    ensures var cells := old_values[pos := value]; var next := if pos + 1 >= |cells| then 0 else pos + 1;
            cells[next..] + cells[..next] == w[1..] + [value]
  {
    var cells := old_values[pos := value];
    assert w[1..] == old_values[pos + 1..] + old_values[..pos];
    assert cells[pos + 1..] == old_values[pos + 1..] && cells[..pos] == old_values[..pos];
    assert cells[..pos + 1] == cells[..pos] + [value];
  }

  lemma TimesSlides(w: seq<int>, v: int)
    requires w != []
    ensures Times(w[1..] + [v]) == Times(w)[1..] + [v * DIVIDER] && Times(w)[0] == w[0] * DIVIDER
  {
  }

  /** The textbook average of the same window: weights 1 to n, the newest value with weight n. */
  function WindowNum(n: nat, h: seq<int>): int
    requires h != []
  {
    Weighted(Window(n, h)) + Sum(Window(n, h))
  }

  /** The weighted sum is the textbook one exactly while n times the first value equals the total of the window. */
  lemma MovingAverageIff(n: nat, h: seq<int>)
    requires h != []
    ensures Num(n, h) == WindowNum(n, h) <==> Mul(n, h[0]) == Sum(Window(n, h))
  {
  }

  /** The textbook average as the counter would show it. */
  function WindowShown(n: nat, h: seq<int>): nat
    requires h != [] && n > 0
  {
    Clamp(TruncDiv(DIVIDER * WindowNum(n, h), Triangle(n)))
  }

  /** What is missing from the first value's weight, or too much, in units of what is shown. */
  function Excess(n: nat, h: seq<int>): int
    requires h != [] && n > 0
  {
    TruncDiv(DIVIDER * (Mul(n, h[0]) - Sum(Window(n, h))), Triangle(n))
  }

  lemma TruncParts(a: int, d: nat) returns (r: int)
    requires d > 0
    ensures a == Mul(d, TruncDiv(a, d)) + r && r < d && -r < d && (a >= 0 ==> r >= 0) && (a <= 0 ==> r <= 0)
  {
    if a >= 0 {
      DivisionParts(a, d);
      r := a % d;
    } else {
      DivisionParts(-a, d);
      Opposite(d, (-a) / d);
      r := -((-a) % d);
    }
  }

  /** Truncated quotients add up to within one. */
  lemma TruncSum(a: int, b: int, d: nat)
    requires d > 0
    ensures -1 <= TruncDiv(a, d) - TruncDiv(b, d) - TruncDiv(a - b, d) <= 1
  {
    var ra := TruncParts(a, d);
    var rb := TruncParts(b, d);
    var re := TruncParts(a - b, d);
    var x, y, z := TruncDiv(a, d), TruncDiv(b, d), TruncDiv(a - b, d);
    hide TruncDiv, Mul;
    var q := x - y - z;
    MulLaws(x - y, -z, d);
    MulLaws(x, -y, d);
    Opposite(d, y);
    Opposite(d, z);
    assert Mul(d, q) == Mul(d, x) - Mul(d, y) - Mul(d, z);
    assert -2 * d < Mul(d, q) < 2 * d;
    MulLaws(1, 1, d);
    MulLaws(d, 0, 0);
    Opposite(d, 2);
    if q >= 2 { MulGrows(d, 2, q); }
    if q <= -2 { MulGrows(d, q, -2); }
  }

  /** What is shown lies the excess away from the textbook average, up to rounding by one 256th; with no excess it is
      the textbook average. */
  lemma ShownApart(n: nat, h: seq<int>)
    requires h != [] && n > 0
    ensures -1 <= TruncDiv(DIVIDER * Num(n, h), Triangle(n)) - TruncDiv(DIVIDER * WindowNum(n, h), Triangle(n))
                  - Excess(n, h) <= 1
    ensures (forall k | 0 <= k < |h| :: h[k] >= 0) ==> -1 <= Shown(n, h) - WindowShown(n, h) - Excess(n, h) <= 1
    ensures Mul(n, h[0]) == Sum(Window(n, h)) ==> Shown(n, h) == WindowShown(n, h)
  {
    hide TruncDiv, Mul, Weighted, Sum, Window, Triangle;
    TruncSum(DIVIDER * Num(n, h), DIVIDER * WindowNum(n, h), Triangle(n));
    if forall k | 0 <= k < |h| :: h[k] >= 0 { NothingClamped(n, h); }
  }

  lemma {:induction false} NonNegativeSums(w: seq<int>)
    requires forall k | 0 <= k < |w| :: w[k] >= 0
    ensures Sum(w) >= 0 && Weighted(w) >= 0
  {
    if w != [] { NonNegativeSums(w[..|w| - 1]); }
  }

  lemma NothingClamped(n: nat, h: seq<int>)
    requires h != [] && n > 0 && forall k | 0 <= k < |h| :: h[k] >= 0
    ensures TruncDiv(DIVIDER * Num(n, h), Triangle(n)) >= 0 && TruncDiv(DIVIDER * WindowNum(n, h), Triangle(n)) >= 0
  {
    var all := Repeat(n, h[0]) + h[1..];
    forall k | 0 <= k < n ensures Window(n, h)[k] >= 0 { assert Window(n, h)[k] == all[|h| - 1 + k]; }
    NonNegativeSums(Window(n, h));
    MulGrows(n, 0, h[0]);
    MulLaws(n, 0, 0);
    assert Num(n, h) >= 0;
    hide Num, Weighted, Sum, Window, Mul;
    TruncNonNegative(DIVIDER * Num(n, h), Triangle(n));
    TruncNonNegative(DIVIDER * WindowNum(n, h), Triangle(n));
  }

  lemma TruncNonNegative(a: int, d: nat)
    requires a >= 0 && d > 0
    ensures TruncDiv(a, d) >= 0
  {
    var q := a / d;
    assert q >= 0;
  }

  /** What is shown can be the average although the weighted sum is not: for 3 and then 2 in a window of two. */
  lemma RoundingHides()
    ensures Mul(2, 3) != Sum(Window(2, [3, 2])) && Shown(2, [3, 2]) / DIVIDER == WindowShown(2, [3, 2]) / DIVIDER == 2
  {
    assert Window(2, [3, 2]) == [3, 2];
    assert [3, 2][..1] == [3] && [3][..0] == [];
    assert Triangle(2) == 3 by { assert Triangle(1) == 1; }
  }

  /** It is not for 3 and then 0 in a window of two: 2 is shown where the window's average is 1. */
  lemma NotAMovingAverage()
    ensures Mul(2, 3) != Sum(Window(2, [3, 0]))
    ensures Shown(2, [3, 0]) / DIVIDER == 2
    ensures WindowShown(2, [3, 0]) / DIVIDER == 1
  {
    assert Window(2, [3, 0]) == [3, 0];
    assert [3, 0][..1] == [3] && [3][..0] == [];
    assert Triangle(2) == 3 by { assert Triangle(1) == 1; }
  }

  // ---- What the closed form is made of ----

  /** Cell k of a window weighs k, and 1 in the sum. */
  lemma {:induction false} WeightedAt(w: seq<int>, k: nat, x: int)
    requires k < |w|
    ensures Weighted(w[k := x]) - Weighted(w) == Mul(k, x) - Mul(k, w[k])
    ensures Sum(w[k := x]) - Sum(w) == x - w[k]
  {
    hide Mul;
    var n, u := |w| - 1, w[k := x];
    if k < n {
      assert u[..n] == w[..n][k := x];
      WeightedAt(w[..n], k, x);
    } else {
      assert u[..n] == w[..n];
    }
  }

  /** Cell k of the window of n after a history: the value n - k back, or the first one if there are not so many. */
  lemma WindowAt(n: nat, h: seq<int>, k: nat)
    requires h != [] && k < n
    ensures Window(n, h)[k] == if |h| + k < n then h[0] else h[|h| + k - n]
  {
    assert Window(n, h)[k] == (Repeat(n, h[0]) + h[1..])[|h| - 1 + k];
  }

  lemma {:induction false} TriangleIs(n: nat)
    ensures 2 * Triangle(n) == Mul(n, n + 1)
  {
    if n > 0 { TriangleIs(n - 1); }
  }

  /** What is shown is the weighted sum in 256ths over the divisor, rounded down; 0 when it is negative. */
  lemma ShownIs(n: nat, h: seq<int>)
    requires h != [] && n > 0
    ensures var d, a := Triangle(n), 256 * Num(n, h);
            if a < 0 then Shown(n, h) == 0 else Mul(d, Shown(n, h)) <= a < Mul(d, Shown(n, h)) + d
  {
    hide Mul, Num, Triangle, TruncDiv;
    RoundedDown(DIVIDER * Num(n, h), Triangle(n));
  }

  lemma RoundedDown(a: int, d: nat)
    requires d > 0
    ensures var q := Clamp(TruncDiv(a, d)); if a < 0 then q == 0 else Mul(d, q) <= a < Mul(d, q) + d
  {
    hide Mul, TruncDiv;
    if a >= 0 {
      var r := TruncParts(a, d);
      TruncNonNegative(a, d);
    } else {
      NegativeQuotient(a, d);
    }
  }

  function Times(w: seq<int>): (s: seq<int>)
    ensures |s| == |w| && forall k | 0 <= k < |w| :: s[k] == w[k] * DIVIDER
  {
    seq(|w|, k requires 0 <= k < |w| => w[k] * DIVIDER)
  }

  /** The closed form: circular window, total, weighted sum and average of a nonempty history. */
  ghost predicate Agrees(n: nat, h: seq<int>, old_values: seq<int>, pos: nat, total: int, num: int, avr: int)
    requires h != [] && n > 0
  {
    && pos < |old_values| == n && old_values[pos..] + old_values[..pos] == Times(Window(n, h))
    && total == DIVIDER * Sum(Window(n, h)) && num == DIVIDER * Num(n, h) && avr == Shown(n, h)
  }

  lemma Starts(n: nat, v: int, value: int)
    requires n > 0 && value == v * DIVIDER
    ensures Agrees(n, [v], Repeat(n, value), 0, value * n, value * Triangle(n), Clamp(value))
  {
    hide Mul, Sum, Num, Window, Triangle, TruncDiv, Shown;
    FirstShown(n, v);
    MulDivider(n, v);
    MulDivider(Triangle(n), v);
    assert Times(Repeat(n, v)) == Repeat(n, value);
  }

  lemma Advances(n: nat, h: seq<int>, cells: seq<int>, pos: nat, total: int, num: int, avr: int, v: int, value: int)
    requires h != [] && n > 0 && Agrees(n, h, cells, pos, total, num, avr) && value == v * DIVIDER
    ensures var total' := total + (value - cells[pos]); var num' := num + (n * value - total');
            Agrees(n, h + [v], cells[pos := value], if pos + 1 >= n then 0 else pos + 1, total', num',
                   Clamp(TruncDiv(num', Triangle(n))))
  {
    hide Mul, Sum, Num, Window, Triangle, TruncDiv;
    var w := Window(n, h);
    Rotated(cells, pos, Times(w), value);
    TimesSlides(w, v);
    NextNum(n, h, v);
    MulDivider(n, v);
  }

  /** How far the 32-bit fields can get from zero. */
  lemma FieldsBounded(n: nat, h: seq<int>, cells: seq<int>, pos: nat, total: int, num: int, avr: int, bound: int)
    requires h != [] && n > 0 && Agrees(n, h, cells, pos, total, num, avr) && Within(h, -bound, bound)
    ensures -DIVIDER * Mul(n, bound) <= total <= DIVIDER * Mul(n, bound)
    ensures -DIVIDER * Mul(Triangle(n), bound) <= num <= DIVIDER * Mul(Triangle(n), bound)
    ensures 0 <= avr <= DIVIDER * bound + DIVIDER - 1
  {
    assert -bound <= h[0] <= bound;
    WindowWithin(n, h, -bound, bound);
    HullOfSums(Window(n, h), -bound, bound);
    NumInHull(n, h, -bound, bound);
    ShownBetween(n, h, -bound, bound);
    Opposite(n, bound);
    Opposite(Triangle(n), bound);
    hide Mul, Sum, Num, Window, Triangle, Shown;
  }

  lemma Opposite(k: nat, x: int)
    ensures Mul(k, -x) == -Mul(k, x)
  {
  }

  /** For values up to this magnitude everything the counter computes fits 32 bits. */
  ghost predicate Fits32(n: nat, bound: int) {
    bound > 0 && 2 * DIVIDER * Mul(n, bound) < 0x8000_0000 && DIVIDER * Mul(Triangle(n), bound) < 0x8000_0000
  }

  lemma ProductBetween(k: nat, v: int, bound: int)
    requires -bound <= v <= bound
    ensures -Mul(k, bound) <= Mul(k, v) <= Mul(k, bound)
  {
    Opposite(k, bound);
    MulGrows(k, -bound, v);
    MulGrows(k, v, bound);
  }

  lemma AtLeastOnce(k: nat, bound: int)
    requires k > 0 && bound >= 0
    ensures bound <= Mul(k, bound)
  {
  }

  lemma StartFits(n: nat, v: int, value: int, bound: int)
    requires n > 0 && Fits32(n, bound) && -bound <= v <= bound && value == v * DIVIDER
    ensures IsI32(value) && IsI32(value * n) && IsI32(value * Triangle(n))
  {
    MulDivider(n, v);
    MulDivider(Triangle(n), v);
    hide Mul, Triangle;
    ProductBetween(n, v, bound);
    ProductBetween(Triangle(n), v, bound);
    AtLeastOnce(n, bound);
  }

  /** A cell of the circular buffer holds a scaled value of the window. */
  lemma CellBounded(n: nat, h: seq<int>, cells: seq<int>, pos: nat, total: int, num: int, avr: int, bound: int)
    requires h != [] && n > 0 && Agrees(n, h, cells, pos, total, num, avr) && Within(h, -bound, bound)
    ensures pos < |cells| && -DIVIDER * bound <= cells[pos] <= DIVIDER * bound
  {
    var w := Window(n, h);
    WindowWithin(n, h, -bound, bound);
    Rotated(cells, pos, Times(w), 0);
    assert cells[pos] == w[0] * DIVIDER;
  }

  lemma RangesFit(value: int, cell: int, total: int, product: int, num: int, b: int, m: int, t: int)
    requires b <= m && 2 * DIVIDER * m < 0x8000_0000 && DIVIDER * t < 0x8000_0000
    requires -DIVIDER * b <= value <= DIVIDER * b && -DIVIDER * b <= cell <= DIVIDER * b
    requires -DIVIDER * m <= total <= DIVIDER * m && -DIVIDER * m <= product <= DIVIDER * m
    requires -DIVIDER * t <= num <= DIVIDER * t
    ensures IsI32(value) && IsI32(value - cell) && IsI32(total) && IsI32(product) && IsI32(product - total)
            && IsI32(num)
  {
  }

  lemma AdvanceFits(n: nat, h: seq<int>, cells: seq<int>, pos: nat, total: int, num: int, avr: int, v: int, value: int,
                    bound: int)
    requires h != [] && n > 0 && Agrees(n, h, cells, pos, total, num, avr) && value == v * DIVIDER
    requires Fits32(n, bound) && Within(h, -bound, bound) && -bound <= v <= bound
    ensures pos < |cells|
    ensures var total' := total + (value - cells[pos]);
            && IsI32(value) && IsI32(value - cells[pos]) && IsI32(total') && IsI32(n * value)
            && IsI32(n * value - total') && IsI32(num + (n * value - total'))
  {
    hide Mul, Triangle, Agrees, TruncDiv;
    CellBounded(n, h, cells, pos, total, num, avr, bound);
    var total' := total + (value - cells[pos]);
    var num' := num + (n * value - total');
    Advances(n, h, cells, pos, total, num, avr, v, value);
    FieldsBounded(n, h + [v], cells[pos := value], if pos + 1 >= n then 0 else pos + 1, total', num',
                  Clamp(TruncDiv(num', Triangle(n))), bound);
    MulDivider(n, v);
    ProductBetween(n, v, bound);
    AtLeastOnce(n, bound);
    RangesFit(value, cells[pos], total', n * value, num', bound, Mul(n, bound), Mul(Triangle(n), bound));
  }

  class Counter {
    /** The caller keeps values within this magnitude. */
    ghost const bound: nat
    var m_total: int
    var m_num: int
    var m_wma_div: int
    var m_avr: int
    const m_len: nat
    const m_old_values: array<int>
    var m_old_values_pos: nat
    var m_empty: bool
    /** Values added since the last reset. */
    ghost var history: seq<int>

    ghost predicate Valid()
      reads this, m_old_values
    {
      && m_len > 0 && m_old_values.Length == m_len && m_old_values_pos < m_len && m_wma_div == Triangle(m_len)
      && m_empty == (history == []) && Fits32(m_len, bound) && Within(history, -(bound as int), bound)
      && if m_empty then m_total == m_num == m_avr == 0 == m_old_values_pos
         else Agrees(m_len, history, m_old_values[..], m_old_values_pos, m_total, m_num, m_avr)
    }

    constructor (len: nat, ghost bound: nat)
      requires len > 0 && Fits32(len, bound)
      ensures Valid() && history == [] && m_len == len && this.bound == bound && fresh(m_old_values)
    {
      m_len, this.bound := len, bound;
      m_old_values := new int[len](_ => 0);
      var div := 0;
      for i := 1 to len + 1
        invariant div == Triangle(i - 1)
      {
        div := div + i;
      }
      m_wma_div := div;
      m_total, m_num, m_avr, m_empty, m_old_values_pos, history := 0, 0, 0, true, 0, [];
    }

    method Reset()
      requires Valid()
      modifies this, m_old_values
      ensures Valid() && history == []
    {
      m_total, m_num, m_avr := 0, 0, 0;
      m_empty := true;
      m_old_values_pos := 0;
      history := [];
      FillCells(m_old_values, 0);
    }

    /** get_value. */
    method GetValue() returns (value: int)
      requires Valid()
      ensures value == if history == [] then 0 else Shown(m_len, history) / DIVIDER
    {
      value := TruncDiv(m_avr, DIVIDER);
    }

    /** add_value, without overflow. */
    method AddValue(v: int)
      requires Valid() && -(bound as int) <= v <= bound
      modifies this, m_old_values
      ensures Valid() && history == old(history) + [v]
    {
      hide Agrees, Repeat, TruncDiv, Fits32;
      if m_empty {
        StartFits(m_len, v, v * DIVIDER, bound);
      } else {
        AdvanceFits(m_len, history, m_old_values[..], m_old_values_pos, m_total, m_num, m_avr, v, v * DIVIDER, bound);
      }
      var value := I32(v * DIVIDER);
      if m_empty {
        Starts(m_len, v, value);
        m_total := I32(value * m_len);
        m_num := I32(value * m_wma_div);
        FillCells(m_old_values, value);
        m_avr := value;
        history := [v];
      } else {
        ghost var cells, pos := m_old_values[..], m_old_values_pos;
        Advances(m_len, history, cells, pos, m_total, m_num, m_avr, v, value);
        m_total := I32(m_total + I32(value - m_old_values[m_old_values_pos]));
        m_old_values[m_old_values_pos] := value;
        assert m_old_values[..] == cells[pos := value];
        m_old_values_pos := m_old_values_pos + 1;
        if m_old_values_pos >= m_len { m_old_values_pos := 0; }
        m_num := I32(m_num + I32(I32(m_len * value) - m_total));
        m_avr := TruncDiv(m_num, m_wma_div);
        history := history + [v];
      }
      m_empty := false;
      if m_avr < 0 { m_avr := 0; }
    }
  }

  method FillCells(cells: array<int>, value: int)
    modifies cells
    ensures cells[..] == Repeat(cells.Length, value)
  {
    for i := 0 to cells.Length
      invariant cells[..i] == Repeat(i, value)
    {
      cells[i] := value;
      assert cells[..i + 1] == cells[..i] + [value];
    }
    assert cells[..] == cells[..cells.Length];
  }
}
