/** The capture side's first high-pass filter: the signal minus its exponential smoothing, in fixed point. */
module HighPass {
  import opened Arithmetic
  import opened Sequences

  const ONE := 16384

  /** 0.01 in fixed point, truncated. */
  const A0 := 163

  /** Arithmetic shift right by 14: rounds toward minus infinity. */
  function Shift(v: int): int {
    v / ONE
  }

  /** The smoothed value after one more sample. */
  function Smooth(x: int, input: int): int {
    x + Shift(A0 * (input * ONE - x))
  }

  /** What a pj_int16_t keeps of a value. */
  function Cast16(v: int): int {
    (v + 0x8000) % 0x1_0000 - 0x8000
  }

  /** The sample returned, before it is cut to 16 bits. */
  function Output(x: int, input: int): int {
    Shift(input * ONE - Smooth(x, input))
  }

  /** The smoothed value after a sequence of samples. */
  function After(x: int, inputs: seq<int>): int {
    if inputs == [] then x else Smooth(After(x, inputs[..|inputs| - 1]), inputs[|inputs| - 1])
  }

  /** Distance still to go after one step, from distance d. */
  function Left(d: int): int {
    d - Shift(A0 * d)
  }

  /** A step never overshoots. It makes progress except when the smoothed value is at most 100 below: rounding keeps it
      there, while from above it always moves. */
  lemma StepTowards(d: int)
    ensures d >= 0 ==> 0 <= Left(d) <= d
    ensures d < 0 ==> d < Left(d) <= 0
    ensures Left(d) == d <==> 0 <= d <= 100
  {
  }

  lemma SmoothLeft(x: int, input: int)
    ensures input * ONE - Smooth(x, input) == Left(input * ONE - x)
  {
  }

  /** The smoothed value stays between its old value and the scaled sample, so in any interval that holds zero and all
      scaled samples. */
  lemma {:induction false} SmoothInHull(x: int, inputs: seq<int>, lo: int, hi: int)
    requires lo <= x <= hi && forall k | 0 <= k < |inputs| :: lo <= inputs[k] * ONE <= hi
    ensures lo <= After(x, inputs) <= hi
  {
    if inputs != [] {
      var front, last := inputs[..|inputs| - 1], inputs[|inputs| - 1];
      SmoothInHull(x, front, lo, hi);
      StepTowards(last * ONE - After(x, front));
      SmoothLeft(After(x, front), last);
    }
  }

  /** For 16-bit samples from the initial state, state and difference fit 32 bits. */
  lemma FitsInt32(inputs: seq<int>, next: int)
    requires forall k | 0 <= k < |inputs| :: -32768 <= inputs[k] <= 32767
    requires -32768 <= next <= 32767
    ensures -0x2000_0000 <= After(0, inputs) < 0x2000_0000
    ensures -0xFFFF * ONE <= next * ONE - After(0, inputs) <= 0xFFFF * ONE
  {
    SmoothInHull(0, inputs, -32768 * ONE, 32767 * ONE);
  }

  lemma ConstantGrows(n: nat, input: int)
    requires n > 0
    ensures Repeat(n, input)[..n - 1] == Repeat(n - 1, input) && Repeat(n, input)[n - 1] == input
  {
  }

  /** The distance left on a constant input never grows or changes sign, and shrinks by one a sample at least, until it
      is between 0 and 100. */
  lemma {:induction false} DistanceShrinks(x: int, input: int, n: nat)
    ensures var d, left := input * ONE - x, input * ONE - After(x, Repeat(n, input));
            && (d >= 0 ==> 0 <= left <= d) && (d <= 0 ==> d <= left <= 0)
            && (0 <= left <= 100 || Abs(left) + n <= Abs(d))
  {
    if n > 0 {
      ConstantGrows(n, input);
      var before := After(x, Repeat(n - 1, input));
      DistanceShrinks(x, input, n - 1);
      StepTowards(input * ONE - before);
      SmoothLeft(before, input);
    }
  }

  /** The output is zero exactly when the new smoothed value is at the scaled sample or less than one unit below it. */
  lemma OutputIsZero(x: int, input: int)
    ensures Output(x, input) == 0 <==> 0 <= input * ONE - Smooth(x, input) < ONE
  {
  }

  /** On a constant input the output becomes zero and stays zero, after as many samples as the distance at the start at
      the latest. */
  lemma OutputSettles(x: int, input: int, n: nat)
    requires n >= Abs(input * ONE - x)
    ensures Output(After(x, Repeat(n, input)), input) == 0
  {
    DistanceShrinks(x, input, n + 1);
    ConstantGrows(n + 1, input);
    OutputIsZero(After(x, Repeat(n, input)), input);
  }

  /** Once the output is zero on a constant input it stays so. */
  lemma ZeroStays(x: int, input: int)
    requires Output(x, input) == 0
    ensures Output(Smooth(x, input), input) == 0
  {
    SmoothLeft(Smooth(x, input), input);
    StepTowards(input * ONE - Smooth(x, input));
  }

  /** The resting state keeps a remainder: coming from below, the smoothed value stops short of the sample. */
  lemma RestsBelow(x: int, input: int)
    ensures Smooth(x, input) == x <==> 0 <= input * ONE - x <= 100
  {
    StepTowards(input * ONE - x);
  }

  // The distances from which one step still leaves an output of 16 bits.
  const FARTHEST_BELOW := 542265766
  const FARTHEST_ABOVE := -542265768

  lemma CastExact(v: int)
    ensures Cast16(v) == v <==> -32768 <= v <= 32767
    ensures -0x1_0000 < v < 0x1_0000 ==> (Cast16(v) == 0 <==> v == 0)
  {
  }

  /** The cut to 16 bits changes the sample iff the state is too far from the scaled input before the call. */
  lemma OutputFitsIff(x: int, input: int)
    ensures Cast16(Output(x, input)) == Output(x, input) <==> FARTHEST_ABOVE <= input * ONE - x <= FARTHEST_BELOW
  {
    CastExact(Output(x, input));
  }

  /** A constant input of the least sample takes the state all the way down. */
  lemma LeastIsReached(n: nat)
    requires n >= 0x2000_0000
    ensures After(0, Repeat(n, -32768)) == -32768 * ONE
  {
    DistanceShrinks(0, -32768, n);
  }

  /** So a filter that has settled on the least sample returns -653 for the greatest, instead of 64883. */
  lemma FullScaleStepWraps(n: nat)
    requires n >= 0x2000_0000
    ensures var x := After(0, Repeat(n, -32768));
            Output(x, 32767) == 64883 && Cast16(Output(x, 32767)) == -653 && 32767 * ONE - x > FARTHEST_BELOW
  {
    LeastIsReached(n);
  }

  class IIR_HP {
    var x: int

    constructor ()
      ensures x == 0
    {
      x := 0;
    }

    /** highpass. */
    method Highpass(input: int) returns (output: int)
      modifies this
      ensures x == Smooth(old(x), input) && output == Cast16(Output(old(x), input))
      ensures -0xFFFF * ONE <= input * ONE - x <= 0xFFFF * ONE ==> (output == 0 <==> 0 <= input * ONE - x < ONE)
    {
      var ii := input * ONE;
      x := x + Shift(A0 * (ii - x));
      output := Cast16(Shift(ii - x));
      CastExact(Shift(ii - x));
    }
  }
}
