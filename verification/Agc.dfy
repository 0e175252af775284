/** Automatic gain control in 16.16 fixed point. Every 32-bit product of the source is written through I32, so
    that the absence of overflow is part of what is proved. */
module Agc {
  import opened Arithmetic
  import opened Sequences

  const ONE := 0x1_0000
  const RVOL_COUNT := 25

  // PJS_AGC_CONST32 of 1.1, 0.95 and 0.90 with 10 fraction bits, and of 0.96 and 0.05 with 16.
  const C1_10 := 1126
  const C0_95 := 972
  const C0_90 := 921
  const F0_96 := 62914
  const F0_05 := 3276

  function Max(x: int, y: int): int { if x < y then y else x }

  /** A sample block the source handles: 16-bit samples except -32768, whose magnitude does not fit. */
  ghost predicate Samples(d: seq<int>) {
    forall i | 0 <= i < |d| :: -32767 <= d[i] <= 32767
  }

  // ---- Peak ----

  function Peak(d: seq<int>): nat {
    if d == [] then 0 else Max(Peak(d[..|d| - 1]), Abs(d[|d| - 1]))
  }

  lemma {:induction false} PeakBounds(d: seq<int>, i: nat)
    requires i < |d|
    ensures Abs(d[i]) <= Peak(d)
  {
    if i < |d| - 1 { PeakBounds(d[..|d| - 1], i); }
  }

  /** The j-th most recent block peak, or 0 before there were that many. */
  function Back(peaks: seq<nat>, j: nat): nat
    requires j > 0
  {
    if j <= |peaks| then peaks[|peaks| - j] else 0
  }

  /** The largest of the last n block peaks. */
  function RecentPeak(peaks: seq<nat>, n: nat): nat {
    if n == 0 then 0 else Max(Back(peaks, n), RecentPeak(peaks, n - 1))
  }

  // ---- Gain choice ----

  datatype Action = Keep | Up | Down | DownToOne

  /** The largest gain that keeps a peak of magnitude peak below the target level, but at least one. */
  function MaxGain(target: nat, peak: nat): nat
    requires 0 < peak
  {
    var g := target * ONE / peak;
    if g < ONE then ONE else g
  }

  /** The gain after the step in the chosen direction. */
  function Stepped(gain: nat, action: Action, maxGain: nat): int
  {
    match action
    case Keep => gain
    case Up => if maxGain > gain * C1_10 / 1024 then (if gain > F0_96 then gain + F0_05 else ONE) else gain
    case Down => gain - F0_05
    case DownToOne => Max(ONE, if gain > ONE then gain - F0_05 else gain)
  }

  /** The gain after one block. */
  function NextGain(gain: nat, action: Action, maxGain: nat, lo: nat, hi: nat): nat
  {
    var g1 := Stepped(gain, action, maxGain);
    var g2 := if maxGain < g1 * C0_95 / 1024 then maxGain * C0_90 / 1024 else g1;
    var g3 := if maxGain < g2 then maxGain else g2;
    if g3 < lo then lo else if g3 > hi then hi else g3
  }

  /** Every 32-bit product of the gain step fits. */
  predicate GainFits(gain: nat, action: Action, maxGain: nat)
  {
    var g1 := Stepped(gain, action, maxGain);
    && (action == Up ==> gain * C1_10 < 0x8000_0000)
    && -0x8000_0000 <= g1 * C0_95 < 0x8000_0000
    && (maxGain < g1 * C0_95 / 1024 ==> maxGain * C0_90 < 0x8000_0000)
  }

  /** The least gain whose product overflows when a step up is considered. */
  const GAIN_LIMIT := 1907180

  lemma GainFitsBelow(gain: nat, action: Action, maxGain: nat)
    ensures gain < GAIN_LIMIT ==> GainFits(gain, action, maxGain)
    ensures gain >= GAIN_LIMIT ==> !GainFits(gain, Up, maxGain)
  {
  }

  /** The gain stays below the limit while the range does, or while what the peak allows does whenever it rises. */
  lemma GainStaysBelow(gain: nat, action: Action, maxGain: nat, lo: nat, hi: nat)
    requires lo <= ONE <= hi && maxGain >= ONE && gain < GAIN_LIMIT
    requires hi <= 29 * ONE || (action == Up ==> maxGain <= 2093500)
    ensures NextGain(gain, action, maxGain, lo, hi) < GAIN_LIMIT
  {
  }

  /** The gain stays inside its configured range and never above what the recent peak allows. */
  lemma NextGainBounds(gain: nat, action: Action, maxGain: nat, lo: nat, hi: nat)
    requires lo <= ONE <= hi && maxGain >= ONE
    ensures lo <= NextGain(gain, action, maxGain, lo, hi) <= hi
    ensures NextGain(gain, action, maxGain, lo, hi) <= maxGain
  {
  }

  /** Without echo the gain climbs by a bounded step exactly while there is more than a tenth of headroom, and a
      loud peak pulls it down at once. */
  lemma GainFollowsHeadroom(gain: nat, maxGain: nat, lo: nat, hi: nat)
    requires lo <= ONE <= hi && maxGain >= ONE && lo <= gain <= hi
    ensures var g := NextGain(gain, Up, maxGain, lo, hi);
            && (g > gain <==> gain < hi && maxGain > gain * C1_10 / 1024)
            && g <= Max(ONE, gain + F0_05)
            && (maxGain < gain ==> g <= maxGain < gain)
            && (gain <= maxGain ==> gain <= g)
  {
  }

  /** Echo and silence never raise the gain above one. While the recent peak allows the old gain, echo takes it down
      by exactly one step, to the minimum or to one, and silence keeps it. */
  lemma EchoLowersGain(gain: nat, maxGain: nat, lo: nat, hi: nat)
    requires lo <= ONE <= hi && maxGain >= ONE && lo <= gain <= hi
    ensures NextGain(gain, Down, maxGain, lo, hi) <= Max(lo, gain - F0_05)
    ensures NextGain(gain, DownToOne, maxGain, lo, hi) <= Max(ONE, gain - F0_05)
    ensures gain <= ONE ==> NextGain(gain, DownToOne, maxGain, lo, hi) == ONE
    ensures NextGain(gain, Keep, maxGain, lo, hi) <= gain
    ensures gain <= maxGain ==> NextGain(gain, Keep, maxGain, lo, hi) == gain
                                && NextGain(gain, Down, maxGain, lo, hi) == Max(lo, gain - F0_05)
                                && (gain > ONE ==> NextGain(gain, DownToOne, maxGain, lo, hi) == Max(ONE, gain - F0_05))
  {
  }

  // ---- The ramp ----

  /** The gain applied to sample i of a block of n while moving from one gain to the next. */
  function RampGain(from: int, to: int, n: nat, i: nat): int
    requires n >= 2
  {
    from + i * TruncDiv(to - from, n - 1)
  }

  function Scaled(x: int, g: int): int { x * g / ONE }

  function Ramp(d: seq<int>, from: int, to: int): (out: seq<int>)
    requires |d| >= 2
  {
    seq(|d|, i requires 0 <= i < |d| => Scaled(d[i], RampGain(from, to, |d|, i)))
  }

  lemma ProductMonotone(a: nat, b: nat, c: nat, d: nat)
    requires a <= c && b <= d
    ensures a * b <= c * d
  {
    assert a * b <= c * b;
    assert c * b <= c * d;
  }

  lemma StepsWithin(i: nat, k: nat, total: nat)
    requires i <= k && k > 0
    ensures 0 <= i * (total / k) <= total
  {
    ProductMonotone(i, total / k, k, total / k);
  }

  /** The ramp never leaves the interval between its two ends. */
  lemma RampGainBetween(from: int, to: int, n: nat, i: nat)
    requires n >= 2 && i < n
    ensures if from <= to then from <= RampGain(from, to, n, i) <= to else to <= RampGain(from, to, n, i) <= from
  {
    var total := Abs(to - from);
    StepsWithin(i, n - 1, total);
    var q := total / (n - 1);
    assert i * (-q) == -(i * q);
  }

  lemma MaxGainFits(target: nat, peak: nat)
    requires 0 < peak
    ensures peak * MaxGain(target, peak) <= Max(target, peak) * ONE
  {
  }

  /** A sample no larger than the recent peak, scaled by a gain no larger than that peak allows, stays within the
      larger of the target level and the peak. */
  lemma ScaledFits(x: int, g: nat, target: nat, peak: nat)
    requires 0 < peak && Abs(x) <= peak && g <= MaxGain(target, peak)
    ensures Abs(x * g) <= Max(target, peak) * ONE
    ensures Abs(Scaled(x, g)) <= Max(target, peak)
  {
    MaxGainFits(target, peak);
    ProductMonotone(Abs(x), g, peak, MaxGain(target, peak));
    hide MaxGain;
    AbsProduct(x, g);
    ScaleDown(x * g, Max(target, peak));
  }

  lemma AbsProduct(x: int, g: nat)
    ensures Abs(x * g) == Abs(x) * g
  {
  }

  lemma ScaleDown(y: int, m: nat)
    requires Abs(y) <= m * ONE
    ensures Abs(y / ONE) <= m
  {
  }

  // ---- Loudness ----

  function SumAbs(d: seq<int>): nat {
    if d == [] then 0 else SumAbs(d[..|d| - 1]) + Abs(d[|d| - 1])
  }

  /** How many samples have magnitude v, and how many have at least v. */
  function CountAt(d: seq<int>, v: nat): nat {
    if d == [] then 0 else CountAt(d[..|d| - 1], v) + if Abs(d[|d| - 1]) == v then 1 else 0
  }

  function CountFrom(d: seq<int>, v: nat): nat {
    if d == [] then 0 else CountFrom(d[..|d| - 1], v) + if Abs(d[|d| - 1]) >= v then 1 else 0
  }

  function SumFrom(d: seq<int>, v: nat): nat {
    if d == [] then 0 else SumFrom(d[..|d| - 1], v) + if Abs(d[|d| - 1]) >= v then Abs(d[|d| - 1]) else 0
  }

  lemma {:induction false} LoudnessStep(d: seq<int>, v: nat)
    ensures CountFrom(d, v) == CountFrom(d, v + 1) + CountAt(d, v)
    ensures SumFrom(d, v) == SumFrom(d, v + 1) + v * CountAt(d, v)
  {
    if d != [] {
      var e, x := d[..|d| - 1], Abs(d[|d| - 1]);
      LoudnessStep(e, v);
      assert v * (CountAt(e, v) + 1) == v * CountAt(e, v) + v;
      assert CountAt(d, v) == CountAt(e, v) + if x == v then 1 else 0;
    }
  }

  lemma {:induction false} LoudnessEnds(d: seq<int>)
    requires Samples(d)
    ensures CountFrom(d, 32768) == 0 && SumFrom(d, 32768) == 0
    ensures CountFrom(d, 0) == |d|
  {
    if d != [] { LoudnessEnds(d[..|d| - 1]); }
  }

  lemma {:induction false} LoudnessSizes(d: seq<int>, v: nat)
    requires Samples(d)
    ensures CountFrom(d, v) <= |d| && SumFrom(d, v) <= 32767 * CountFrom(d, v)
    ensures SumAbs(d) <= 32767 * |d|
  {
    if d != [] { LoudnessSizes(d[..|d| - 1], v); }
  }

  lemma {:induction false} LoudnessAtLeast(d: seq<int>, v: nat)
    ensures v * CountFrom(d, v) <= SumFrom(d, v)
  {
    if d != [] {
      var e := d[..|d| - 1];
      LoudnessAtLeast(e, v);
      assert v * (CountFrom(e, v) + 1) == v * CountFrom(e, v) + v;
    }
  }

  lemma {:induction false} LoudnessAtMost(d: seq<int>, v: nat, p: nat)
    requires Peak(d) <= p
    ensures SumFrom(d, v) <= p * CountFrom(d, v)
  {
    if d != [] {
      var e := d[..|d| - 1];
      LoudnessAtMost(e, v, p);
      assert p * (CountFrom(e, v) + 1) == p * CountFrom(e, v) + p;
    }
  }

  lemma {:induction false} FewerFromAbove(d: seq<int>, v: nat, w: nat)
    requires v <= w
    ensures CountFrom(d, w) <= CountFrom(d, v)
  {
    if d != [] { FewerFromAbove(d[..|d| - 1], v, w); }
  }

  function Mean(total: nat, count: nat): nat
    requires count > 0
  {
    total / count
  }

  /** The loudness of a block: the mean magnitude of its loudest samples, taking whole magnitudes from the top until
      they are more than a sixteenth of the block. */
  ghost predicate IsLoudness(d: seq<int>, level: nat)
  {
    exists v: nat ::
      && CountFrom(d, v + 1) <= |d| / 16 < CountFrom(d, v)
      && level == Mean(SumFrom(d, v), CountFrom(d, v))
  }

  /** A block has a loudness level that at most a sixteenth of its samples exceed, and no more than its peak. */
  lemma FewAreLouder(d: seq<int>, level: nat)
    requires IsLoudness(d, level)
    ensures CountFrom(d, level + 1) <= |d| / 16 && level <= Peak(d)
  {
    var v: nat :| CountFrom(d, v + 1) <= |d| / 16 < CountFrom(d, v) && level == Mean(SumFrom(d, v), CountFrom(d, v));
    LoudnessAtLeast(d, v);
    LoudnessAtMost(d, v, Peak(d));
    hide CountFrom, SumFrom, Peak;
    MeanBetween(SumFrom(d, v), CountFrom(d, v), v, Peak(d));
    FewerFromAbove(d, v + 1, level + 1);
  }

  lemma MeanBetween(total: nat, count: nat, lo: nat, hi: nat)
    requires count > 0 && lo * count <= total <= hi * count
    ensures lo <= Mean(total, count) <= hi
  {
    QuotientAtMost(total, count, hi);
    var q := total / count;
    assert total < (q + 1) * count;
    if q < lo { ProductMonotone(q + 1, count, lo, count); }
  }

  // ---- Which way to go ----

  function Smooth(average: nat, value: nat): nat {
    (average * 972 + 52 * value) / 1024
  }

  /** The echo situation: average and reverse are the smoothed powers after this block. */
  function ChooseAction(maxLevel: nat, rev_power: int, average: nat, reverse: nat, handsfree: bool): Action {
    if maxLevel < 700 then Keep
    else if rev_power <= 0 then Up
    else
      var ratio := reverse / (if average < 1 then 1 else average);
      if handsfree && rev_power >= 500 then Down
      else if ratio > 10 then Down
      else if ratio > 5 then DownToOne
      else if ratio > 2 then Keep
      else Up
  }

  function BlockPower(d: seq<int>, target: nat, expected: nat): nat
    requires |d| > 0 && expected > 0
  {
    var p := SumAbs(d) / |d| * target / expected;
    if p > 32767 then 32767 else p
  }

  lemma UpIsLoud(maxLevel: nat, rev_power: int, average: nat, reverse: nat, handsfree: bool)
    ensures ChooseAction(maxLevel, rev_power, average, reverse, handsfree) == Up ==> maxLevel >= 700
  {
  }

  // ---- Whole runs ----

  /** The configured gain range and levels. */
  datatype Config = Config(lo: nat, hi: nat, target: nat, expected: nat)

  /** What one block leaves for the next: gain, smoothed powers, and the peak of every block so far. */
  datatype Control = Control(gain: nat, average: nat, reverse: nat, peaks: seq<nat>)

  datatype Block = Block(data: seq<int>, rev_power: int, handsfree: bool)

  const START := Control(ONE, 0, 0, [])

  /** A smoothed power of zero is stored as one when it was needed as a divisor. */
  function Stored(average: nat, maxLevel: nat, rev_power: int): nat {
    if maxLevel >= 700 && rev_power > 0 && average < 1 then 1 else average
  }

  function NewAverage(c: Config, s: Control, b: Block): nat
    requires b.data != [] && c.expected > 0
  {
    Smooth(s.average, BlockPower(b.data, c.target, c.expected))
  }

  function NewReverse(s: Control, b: Block): nat {
    if b.rev_power > 0 then Smooth(s.reverse, b.rev_power) else 0
  }

  function ActionFor(c: Config, s: Control, b: Block): Action
    requires b.data != [] && c.expected > 0
  {
    ChooseAction(Peak(b.data), b.rev_power, NewAverage(c, s, b), NewReverse(s, b), b.handsfree)
  }

  /** The largest peak of the last blocks, this one included. */
  function RecentPeakWith(s: Control, b: Block): nat {
    RecentPeak(s.peaks + [Peak(b.data)], RVOL_COUNT)
  }

  /** One block; while nothing but silence was heard lately, only its peak is stored. */
  function Advance(c: Config, s: Control, b: Block): Control
    requires b.data != [] && c.expected > 0
  {
    var peaks, recent := s.peaks + [Peak(b.data)], RecentPeakWith(s, b);
    if recent == 0 then s.(peaks := peaks)
    else Control(NextGain(s.gain, ActionFor(c, s, b), MaxGain(c.target, recent), c.lo, c.hi),
                 Stored(NewAverage(c, s, b), Peak(b.data), b.rev_power), NewReverse(s, b), peaks)
  }

  /** The products of the gain step for one block fit. */
  predicate BlockFits(c: Config, s: Control, b: Block)
    requires b.data != [] && c.expected > 0
  {
    RecentPeakWith(s, b) > 0 ==> GainFits(s.gain, ActionFor(c, s, b), MaxGain(c.target, RecentPeakWith(s, b)))
  }

  /** The blocks that process is called with. */
  ghost predicate Playable(bs: seq<Block>) {
    forall k | 0 <= k < |bs| :: Samples(bs[k].data) && 2 <= |bs[k].data| <= 0xFFFF && bs[k].rev_power <= 32767
  }

  ghost predicate Legal(c: Config, max_gain: nat) {
    c.lo <= ONE && c.hi == max_gain * ONE && 0 < c.target <= 32767 && 0 < c.expected <= 32767
  }

  /** The state after a run of blocks from any state. */
  function From(c: Config, s: Control, bs: seq<Block>): Control
    requires c.expected > 0 && forall b | b in bs :: b.data != []
  {
    if bs == [] then s else Advance(c, From(c, s, bs[..|bs| - 1]), bs[|bs| - 1])
  }

  /** The state after a run of blocks from the start. */
  function Run(c: Config, bs: seq<Block>): Control
    requires c.expected > 0 && forall b | b in bs :: b.data != []
  {
    From(c, START, bs)
  }

  lemma {:induction false} FromConcat(c: Config, s: Control, a: seq<Block>, b: seq<Block>)
    requires c.expected > 0 && (forall x | x in a :: x.data != []) && (forall x | x in b :: x.data != [])
    ensures From(c, s, a + b) == From(c, From(c, s, a), b)
  {
    hide Advance;
    if b == [] {
      assert a + b == a;
    } else {
      assert (a + b)[..|a + b| - 1] == a + b[..|b| - 1];
      FromConcat(c, s, a, b[..|b| - 1]);
    }
  }

  lemma FromOne(c: Config, s: Control, b: Block)
    requires c.expected > 0 && b.data != []
    ensures From(c, s, [b]) == Advance(c, s, b)
  {
    hide Advance;
    assert [b][..0] == [];
  }

  predicate RunFits(c: Config, bs: seq<Block>)
    requires c.expected > 0 && forall b | b in bs :: b.data != []
  {
    bs == [] || (RunFits(c, bs[..|bs| - 1]) && BlockFits(c, Run(c, bs[..|bs| - 1]), bs[|bs| - 1]))
  }

  /** The configurations for which no product of the gain step can overflow. */
  predicate Safe(c: Config) {
    c.hi <= 29 * ONE || c.target <= SAFE_TARGET
  }

  const SAFE_TARGET := 22361

  lemma LowTarget(target: nat, peak: nat)
    requires target <= SAFE_TARGET && peak >= 700
    ensures MaxGain(target, peak) <= 2093500
  {
  }

  /** In a safe configuration one step fits and stays below the limit. */
  lemma SafeStep(c: Config, gain: nat, action: Action, peak: nat)
    requires c.lo <= ONE <= c.hi && Safe(c) && gain < GAIN_LIMIT && peak > 0 && (action == Up ==> peak >= 700)
    ensures var maxGain := MaxGain(c.target, peak);
            && maxGain >= ONE && GainFits(gain, action, maxGain)
            && NextGain(gain, action, maxGain, c.lo, c.hi) < GAIN_LIMIT
  {
    GainAllowed(c.target, peak);
    if c.target <= SAFE_TARGET && peak >= 700 { LowTarget(c.target, peak); }
    hide MaxGain, NextGain, GainFits;
    GainFitsBelow(gain, action, MaxGain(c.target, peak));
    GainStaysBelow(gain, action, MaxGain(c.target, peak), c.lo, c.hi);
  }

  /** The gain rises only for a peak of at least 700, which the last 25 then include. */
  lemma RiseIsLoud(c: Config, s: Control, b: Block)
    requires b.data != [] && c.expected > 0
    ensures Peak(b.data) <= RecentPeakWith(s, b)
    ensures ActionFor(c, s, b) == Up ==> RecentPeakWith(s, b) >= 700
  {
    var peaks := s.peaks + [Peak(b.data)];
    RecentPeakBounds(peaks, RVOL_COUNT);
    assert Back(peaks, 1) == Peak(b.data);
    hide Peak, RecentPeak, NewAverage, NewReverse;
  }

  lemma SafeBlock(c: Config, s: Control, b: Block)
    requires b.data != [] && c.expected > 0 && c.lo <= ONE <= c.hi && Safe(c) && s.gain < GAIN_LIMIT
    ensures BlockFits(c, s, b) && Advance(c, s, b).gain < GAIN_LIMIT
  {
    hide NextGain, GainFits, ActionFor, RecentPeakWith, MaxGain;
    var recent, action := RecentPeakWith(s, b), ActionFor(c, s, b);
    if recent > 0 {
      RiseIsLoud(c, s, b);
      SafeStep(c, s.gain, action, recent);
    }
  }

  lemma StaysInRange(c: Config, s: Control, b: Block)
    requires b.data != [] && c.expected > 0 && c.lo <= ONE <= c.hi && c.lo <= s.gain <= c.hi
    ensures c.lo <= Advance(c, s, b).gain <= c.hi
  {
    hide NextGain, ActionFor, RecentPeakWith, MaxGain, NewAverage, NewReverse, Stored;
    var recent := RecentPeakWith(s, b);
    if recent > 0 {
      GainAllowed(c.target, recent);
      NextGainBounds(s.gain, ActionFor(c, s, b), MaxGain(c.target, recent), c.lo, c.hi);
    }
  }

  lemma {:induction false} SafeRuns(c: Config, max_gain: nat, bs: seq<Block>)
    requires 1 <= max_gain && Legal(c, max_gain) && Playable(bs) && Safe(c)
    ensures RunFits(c, bs) && c.lo <= Run(c, bs).gain <= c.hi && Run(c, bs).gain < GAIN_LIMIT
  {
    hide Advance, BlockFits;
    if bs != [] {
      SafeRuns(c, max_gain, bs[..|bs| - 1]);
      StaysInRange(c, Run(c, bs[..|bs| - 1]), bs[|bs| - 1]);
      SafeBlock(c, Run(c, bs[..|bs| - 1]), bs[|bs| - 1]);
    }
  }

  // ---- Runs that overflow ----

  const LOUD := Block([700, 0], 0, false)
  const SPIKE := Block([860, 0], 0, false)

  lemma BlockPeak(p: nat)
    ensures Peak([p, 0]) == p
  {
    assert [p, 0][..1] == [p] && [p][..0] == [];
    assert Peak([]) == 0 && Peak([p]) == p;
  }

  /** Configurations outside the safe ones. */
  ghost predicate Hot(c: Config) {
    c.lo <= ONE && c.hi >= 30 * ONE && SAFE_TARGET < c.target <= 32767 && c.expected > 0
  }

  /** A loud block is the loudest of the last 25. */
  ghost predicate Quiet(peaks: seq<nat>) {
    forall j | 1 <= j < RVOL_COUNT :: Back(peaks, j) <= 700
  }

  /** The spike is j blocks back and alone. */
  ghost predicate Spiked(peaks: seq<nat>, j: nat) {
    Back(peaks, j + 1) == 860 && forall i | 1 <= i < RVOL_COUNT && i != j + 1 :: Back(peaks, i) <= 700
  }

  lemma BackAppend(peaks: seq<nat>, p: nat, j: nat)
    requires j > 0
    ensures Back(peaks + [p], j) == if j == 1 then p else Back(peaks, j - 1)
  {
  }

  lemma RecentIs(peaks: seq<nat>, m: nat)
    requires (forall j | 1 <= j <= RVOL_COUNT :: Back(peaks, j) <= m)
    requires m > 0 && exists j :: 1 <= j <= RVOL_COUNT && Back(peaks, j) == m
    ensures RecentPeak(peaks, RVOL_COUNT) == m
  {
    RecentPeakBounds(peaks, RVOL_COUNT);
    hide RecentPeak, Back;
  }

  lemma QuietLoud(peaks: seq<nat>)
    requires Quiet(peaks)
    ensures Quiet(peaks + [700]) && RecentPeak(peaks + [700], RVOL_COUNT) == 700
  {
    forall j | 1 <= j <= RVOL_COUNT ensures Back(peaks + [700], j) <= 700 { BackAppend(peaks, 700, j); }
    BackAppend(peaks, 700, 1);
    RecentIs(peaks + [700], 700);
  }

  lemma QuietSpike(peaks: seq<nat>)
    requires Quiet(peaks)
    ensures Spiked(peaks + [860], 0) && RecentPeak(peaks + [860], RVOL_COUNT) == 860
  {
    forall j | 2 <= j <= RVOL_COUNT ensures Back(peaks + [860], j) <= 700 { BackAppend(peaks, 860, j); }
    BackAppend(peaks, 860, 1);
    RecentIs(peaks + [860], 860);
  }

  /** For 24 blocks the spike is remembered, then it is forgotten. */
  lemma SpikedLoud(peaks: seq<nat>, j: nat)
    requires j < 24 && Spiked(peaks, j)
    ensures RecentPeak(peaks + [700], RVOL_COUNT) == 860
    ensures if j + 1 < 24 then Spiked(peaks + [700], j + 1) else Quiet(peaks + [700])
  {
    forall i | 1 <= i <= RVOL_COUNT
      ensures Back(peaks + [700], i) <= 700 || i == j + 2
    {
      BackAppend(peaks, 700, i);
    }
    BackAppend(peaks, 700, j + 2);
    hide Back;
    RecentIs(peaks + [700], 860);
  }

  /** A block that is loud, without echo, moves the gain by the step up alone. */
  lemma UpBlock(c: Config, s: Control, b: Block, p: nat, recent: nat)
    requires c.expected > 0 && p >= 700 && b == Block([p, 0], 0, false)
    requires RecentPeak(s.peaks + [p], RVOL_COUNT) == recent > 0
    ensures ActionFor(c, s, b) == Up && RecentPeakWith(s, b) == recent
    ensures Advance(c, s, b).gain == NextGain(s.gain, Up, MaxGain(c.target, recent), c.lo, c.hi)
    ensures Advance(c, s, b).peaks == s.peaks + [p]
  {
    BlockPeak(p);
    hide Peak, RecentPeak, MaxGain, NewAverage, NewReverse, NextGain, Stored;
  }

  lemma Rises(c: Config, gain: nat)
    requires Hot(c) && ONE <= gain && gain + F0_05 <= 30 * ONE && gain * C1_10 / 1024 < c.target * ONE / 700
    ensures NextGain(gain, Up, MaxGain(c.target, 700), c.lo, c.hi) == gain + F0_05
  {
  }

  /** Loud blocks raise the gain step by step as long as there is headroom. */
  lemma {:induction false} Climb(c: Config, s: Control, n: nat)
    requires Hot(c) && Quiet(s.peaks) && s.gain >= ONE && s.gain + n * F0_05 <= 30 * ONE
    requires n > 0 ==> (s.gain + (n - 1) * F0_05) * C1_10 / 1024 < c.target * ONE / 700
    ensures var t := From(c, s, Repeat(n, LOUD)); t.gain == s.gain + n * F0_05 && Quiet(t.peaks)
  {
    if n > 0 {
      Climb(c, s, n - 1);
      assert Repeat(n, LOUD)[..n - 1] == Repeat(n - 1, LOUD);
      var t := From(c, s, Repeat(n - 1, LOUD));
      QuietLoud(t.peaks);
      Rises(c, t.gain);
      hide NextGain, MaxGain, RecentPeak, Quiet;
      UpBlock(c, t, LOUD, 700, 700);
    }
  }

  /** Loud blocks behind a spike leave the gain where the spike put it. */
  lemma {:induction false} Holds(c: Config, s: Control, n: nat)
    requires Hot(c) && c.target <= 22393 && Spiked(s.peaks, 0) && n <= 24 && s.gain == MaxGain(c.target, 860) >= ONE
    ensures var t := From(c, s, Repeat(n, LOUD));
            t.gain == s.gain && if n < 24 then Spiked(t.peaks, n) else Quiet(t.peaks)
  {
    if n > 0 {
      Holds(c, s, n - 1);
      assert Repeat(n, LOUD)[..n - 1] == Repeat(n - 1, LOUD);
      var t := From(c, s, Repeat(n - 1, LOUD));
      SpikedLoud(t.peaks, n - 1);
      Stays(c, t.gain);
      hide NextGain, MaxGain, RecentPeak, Quiet, Spiked;
      UpBlock(c, t, LOUD, 700, 860);
    }
  }

  lemma Stays(c: Config, gain: nat)
    requires Hot(c) && c.target <= 22393 && gain == MaxGain(c.target, 860)
    ensures NextGain(gain, Up, MaxGain(c.target, 860), c.lo, c.hi) == gain
  {
  }

  lemma Lands(c: Config, gain: nat)
    requires Hot(c) && c.target <= 22393 && gain == ONE + 501 * F0_05
    ensures NextGain(gain, Up, MaxGain(c.target, 860), c.lo, c.hi) == MaxGain(c.target, 860)
  {
  }

  /** Where the climb behind the spike ends: at the limit or above. */
  lemma LastClimb(target: nat)
    requires SAFE_TARGET < target <= 22393
    ensures var g := MaxGain(target, 860);
            && g >= ONE && g + 62 * F0_05 <= 30 * ONE && (g + 61 * F0_05) * C1_10 / 1024 < target * ONE / 700
            && g + 62 * F0_05 >= GAIN_LIMIT
  {
  }

  function UpAndDown(): seq<Block> {
    Repeat(501, LOUD) + [SPIKE]
  }

  lemma AfterSpike(c: Config)
    requires Hot(c) && c.target <= 22393
    ensures forall b | b in UpAndDown() :: b.data != []
    ensures var t := From(c, START, UpAndDown()); t.gain == MaxGain(c.target, 860) && Spiked(t.peaks, 0)
  {
    Climb(c, START, 501);
    var up := Repeat(501, LOUD);
    var s := From(c, START, up);
    QuietSpike(s.peaks);
    Lands(c, s.gain);
    hide NextGain, MaxGain, RecentPeak, Quiet, Spiked, Advance;
    UpBlock(c, s, SPIKE, 860, 860);
    FromOne(c, s, SPIKE);
    FromConcat(c, START, up, [SPIKE]);
  }

  lemma AfterHold(c: Config)
    requires Hot(c) && c.target <= 22393
    ensures forall b | b in UpAndDown() + Repeat(24, LOUD) :: b.data != []
    ensures var u := From(c, START, UpAndDown() + Repeat(24, LOUD));
            u.gain == MaxGain(c.target, 860) && Quiet(u.peaks)
  {
    AfterSpike(c);
    LastClimb(c.target);
    hide From, MaxGain, Quiet, Spiked, UpAndDown;
    Holds(c, From(c, START, UpAndDown()), 24);
    FromConcat(c, START, UpAndDown(), Repeat(24, LOUD));
  }

  lemma PlayableConcat(a: seq<Block>, b: seq<Block>)
    requires Playable(a) && Playable(b)
    ensures Playable(a + b)
  {
  }

  lemma PlayableRepeat(n: nat, b: Block)
    requires Playable([b])
    ensures Playable(Repeat(n, b))
  {
    assert b == [b][0];
  }

  /** Just outside the safe targets: up, back down to what a single louder block allows, and up again. */
  lemma HotRunByLanding(c: Config) returns (bs: seq<Block>)
    requires Hot(c) && c.target <= 22393
    ensures Playable(bs) && From(c, START, bs).gain >= GAIN_LIMIT
  {
    var front, more := UpAndDown() + Repeat(24, LOUD), Repeat(62, LOUD);
    PlayableRepeat(501, LOUD);
    PlayableRepeat(24, LOUD);
    PlayableRepeat(62, LOUD);
    hide From, MaxGain, Quiet, Repeat;
    PlayableConcat(Repeat(501, LOUD), [SPIKE]);
    PlayableConcat(UpAndDown(), Repeat(24, LOUD));
    PlayableConcat(front, more);
    bs := front + more;
    AfterHold(c);
    LastClimb(c.target);
    Climb(c, From(c, START, front), 62);
    FromConcat(c, START, front, more);
  }

  lemma HotRun(c: Config) returns (bs: seq<Block>)
    requires Hot(c)
    ensures Playable(bs) && From(c, START, bs).gain >= GAIN_LIMIT
  {
    if c.target <= 22393 {
      bs := HotRunByLanding(c);
    } else {
      bs := Repeat(563, LOUD);
      Climb(c, START, 563);
    }
  }

  /** The limit once reached, one more loud block overflows. */
  lemma NextOverflows(c: Config, s: Control)
    requires Hot(c) && s.gain >= GAIN_LIMIT
    ensures !BlockFits(c, s, LOUD)
  {
    BlockPeak(700);
    RiseIsLoud(c, s, LOUD);
    hide Peak, RecentPeakWith, MaxGain, NewAverage, NewReverse, GainFits;
    GainFitsBelow(s.gain, Up, MaxGain(c.target, RecentPeakWith(s, LOUD)));
  }

  ghost predicate NeverOverflows(c: Config)
    requires c.expected > 0
  {
    forall bs: seq<Block> | Playable(bs) :: RunFits(c, bs)
  }

  /** No product of the gain step overflows on any run iff the maximal gain is at most 29 or the target level at most
      22361. */
  lemma OverflowFreeIff(c: Config, max_gain: nat)
    requires 1 <= max_gain && Legal(c, max_gain)
    ensures NeverOverflows(c) <==> max_gain <= 29 || c.target <= SAFE_TARGET
  {
    if max_gain <= 29 || c.target <= SAFE_TARGET {
      forall bs: seq<Block> | Playable(bs) ensures RunFits(c, bs) { SafeRuns(c, max_gain, bs); }
    } else {
      var bs := HotRun(c);
      NextOverflows(c, Run(c, bs));
      var more := bs + [LOUD];
      assert more[..|bs|] == bs;
      assert Playable(more) && !RunFits(c, more);
    }
  }

  class Agc {
    var f_gain: nat
    const f_max_gain: nat
    const f_min_gain: nat
    const f_RVolsAGC: array<int>
    var f_RVolsAGCPos: nat
    var f_averagePower: nat
    var f_revAveragePower: nat
    const f_targetLevel: nat
    const f_expectedMaxLevel: nat
    const f_levels: array<int>
    ghost var peaks: seq<nat>        // the peak of every block so far

    ghost predicate Valid()
      reads this, f_RVolsAGC
    {
      && f_min_gain <= f_gain <= f_max_gain
      && f_min_gain <= ONE <= f_max_gain < 0x8000_0000 && Safe(Settings()) && f_gain < GAIN_LIMIT
      && 0 < f_targetLevel <= 32767 && 0 < f_expectedMaxLevel <= 32767
      && f_averagePower <= 32767 && f_revAveragePower <= 32767
      && f_RVolsAGC.Length == RVOL_COUNT && f_levels.Length == 32768 && f_levels != f_RVolsAGC
      && f_RVolsAGCPos < RVOL_COUNT
      && (forall i | 0 <= i < |peaks| :: peaks[i] <= 32767)
      && Ring(f_RVolsAGC[..], f_RVolsAGCPos, peaks)
    }

    ghost function Settings(): Config {
      Config(f_min_gain, f_max_gain, f_targetLevel, f_expectedMaxLevel)
    }

    ghost function Model(): Control
      reads this
    {
      Control(f_gain, f_averagePower, f_revAveragePower, peaks)
    }

    constructor (max_gain: nat, min_gain: nat, expectedMaxLevel: nat, targetLevel: nat)
      requires 1 <= max_gain < 0x8000 && 1 <= min_gain && (max_gain <= 29 || targetLevel <= SAFE_TARGET)
      requires 0 < targetLevel <= 32767 && 0 < expectedMaxLevel <= 32767
      ensures Valid() && Model() == START
      ensures Settings() == Config(ONE / min_gain, max_gain * ONE, targetLevel, expectedMaxLevel)
      ensures fresh(f_RVolsAGC) && fresh(f_levels)
    {
      f_max_gain, f_min_gain := I32(max_gain * ONE), ONE / min_gain;
      f_targetLevel, f_expectedMaxLevel := targetLevel, expectedMaxLevel;
      f_gain, f_averagePower, f_revAveragePower := ONE, 0, 0;
      f_RVolsAGC := new int[25](_ => 0);
      f_RVolsAGCPos := 0;
      f_levels := new int[32768](_ => 0);
      peaks := [];
    }

    /** One pass over the block: peak, total magnitude and histogram. */
    method Measure(data: array<int>) returns (maxLevel: nat, total: nat)
      requires Valid() && Samples(data[..]) && data != f_levels && data.Length <= 0xFFFF
      modifies f_levels
      ensures maxLevel == Peak(data[..]) && total == SumAbs(data[..])
      ensures forall v: nat | v < 32768 :: f_levels[v] == CountAt(data[..], v)
    {
      for i := 0 to 32768
        invariant forall j | 0 <= j < i :: f_levels[j] == 0
      {
        f_levels[i] := 0;
      }
      maxLevel, total := 0, 0;
      for i := 0 to data.Length
        invariant maxLevel == Peak(data[..i]) && total == SumAbs(data[..i])
        invariant forall v: nat | v < 32768 :: f_levels[v] == CountAt(data[..i], v)
      {
        assert data[..i + 1][..i] == data[..i];
        var v := Abs(data[i]);
        if v > maxLevel { maxLevel := v; }
        total := total + v;
        f_levels[v] := f_levels[v] + 1;
      }
      assert data[..data.Length] == data[..];
    }

    /** The loudness histogram, from the top. */
    method Loudness(ghost d: seq<int>, size: nat) returns (level: nat)
      requires f_levels.Length == 32768 && Samples(d) && |d| == size && 0 < size <= 0xFFFF
      requires forall v: nat | v < 32768 :: f_levels[v] == CountAt(d, v)
      ensures IsLoudness(d, level) && level <= 32767
    {
      hide CountFrom, SumFrom, CountAt, IsLoudness, Mean, Samples;
      level := 0;
      var l: nat, c: nat, t: nat := size / 16, 0, 0;
      var i := 32767;
      LoudnessEnds(d);
      while i >= 0
        invariant -1 <= i <= 32767
        invariant c == CountFrom(d, i + 1) <= l && t == SumFrom(d, i + 1)
        decreases i
      {
        LoudnessNext(d, i);
        var n := f_levels[i];
        c := I32(c + n);
        t := I32(t + I32(i * n));
        if c > l {
          LoudnessMean(d, i);
          level := Mean(t, c);
          return;
        }
        i := i - 1;
      }
      assert false;
    }

    /** Stores the block's peak and returns the largest of the last 25. */
    method PushPeak(maxLevel: nat) returns (bufMaxLevel: nat)
      requires Valid() && maxLevel <= 32767
      modifies this`f_RVolsAGCPos, this`peaks, f_RVolsAGC
      ensures Valid() && peaks == old(peaks) + [maxLevel]
      ensures bufMaxLevel == RecentPeak(peaks, RVOL_COUNT) <= 32767 && maxLevel <= bufMaxLevel
    {
      hide Ring, RecentPeak;
      RingPush(f_RVolsAGC[..], f_RVolsAGCPos, peaks, maxLevel);
      f_RVolsAGC[f_RVolsAGCPos] := maxLevel;
      f_RVolsAGCPos := f_RVolsAGCPos + 1;
      if f_RVolsAGCPos >= RVOL_COUNT { f_RVolsAGCPos := 0; }
      peaks := peaks + [maxLevel];
      bufMaxLevel := 0;
      for i := 0 to RVOL_COUNT
        invariant forall j | 0 <= j < i :: f_RVolsAGC[j] <= bufMaxLevel
        invariant bufMaxLevel == 0 || exists j :: 0 <= j < i && f_RVolsAGC[j] == bufMaxLevel
      {
        if bufMaxLevel < f_RVolsAGC[i] { bufMaxLevel := f_RVolsAGC[i]; }
      }
      RingMax(f_RVolsAGC[..], f_RVolsAGCPos, peaks, bufMaxLevel);
      RecentPeakLimit(peaks, RVOL_COUNT, 32767);
    }

    /** The smoothed powers and the direction they choose. */
    method Direction(maxLevel: nat, powerLevel: nat, rev_power: int, handsfree: bool) returns (action: Action)
      requires f_averagePower <= 32767 && f_revAveragePower <= 32767 && powerLevel <= 32767 && rev_power <= 32767
      modifies this`f_averagePower, this`f_revAveragePower
      ensures f_averagePower == Stored(Smooth(old(f_averagePower), powerLevel), maxLevel, rev_power) <= 32767
      ensures f_revAveragePower == (if rev_power > 0 then Smooth(old(f_revAveragePower), rev_power) else 0) <= 32767
      ensures action == ChooseAction(maxLevel, rev_power, Smooth(old(f_averagePower), powerLevel), f_revAveragePower,
                                     handsfree)
    {
      action := Up;
      f_averagePower := I32(I32(f_averagePower * 972) + I32(52 * powerLevel)) / 1024;
      if rev_power > 0 {
        f_revAveragePower := I32(I32(f_revAveragePower * 972) + I32(52 * rev_power)) / 1024;
      } else {
        f_revAveragePower := 0;
      }
      if maxLevel < 700 {
        action := Keep;
      } else if rev_power > 0 {
        if f_averagePower < 1 { f_averagePower := 1; }
        var ratio := f_revAveragePower / f_averagePower;
        if handsfree && rev_power >= 500 {
          action := Down;
        } else if ratio > 10 {
          action := Down;
        } else if ratio > 5 {
          action := DownToOne;
        } else if ratio > 2 {
          action := Keep;
        }
      }
    }

    /** The step in the chosen direction, without overflow. */
    method Stride(action: Action, maxGain: nat) returns (gain: int)
      requires f_gain < 0x8000_0000 && maxGain < 0x8000_0000 && GainFits(f_gain, action, maxGain)
      ensures gain == Stepped(f_gain, action, maxGain)
    {
      gain := f_gain;
      match action {
        case Keep =>
        case Up =>
          if maxGain > I32(gain * C1_10) / 1024 {
            if gain > F0_96 { gain := I32(gain + F0_05); } else { gain := ONE; }
          }
        case Down =>
          gain := gain - F0_05;
        case DownToOne =>
          if gain > ONE { gain := gain - F0_05; }
          if gain < ONE { gain := ONE; }
      }
    }

    /** The new gain, without overflow. */
    method StepGain(action: Action, maxGain: nat)
      requires f_gain < 0x8000_0000 && maxGain < 0x8000_0000 && GainFits(f_gain, action, maxGain)
      modifies this`f_gain
      ensures f_gain == NextGain(old(f_gain), action, maxGain, f_min_gain, f_max_gain)
    {
      hide Stepped;
      var gain := Stride(action, maxGain);
      if maxGain < I32(gain * C0_95) / 1024 { gain := I32(maxGain * C0_90) / 1024; }
      if maxGain < gain { gain := maxGain; }
      if gain < f_min_gain { gain := f_min_gain; } else if gain > f_max_gain { gain := f_max_gain; }
      f_gain := gain;
    }

    /** The gain for the block; returns the gain the ramp starts from. */
    method UpdateGain(maxLevel: nat, bufMaxLevel: nat, powerLevel: nat, rev_power: int, handsfree: bool)
      returns (prev_gain: nat)
      requires Valid() && 0 < bufMaxLevel <= 32767 && maxLevel <= bufMaxLevel
      requires powerLevel <= 32767 && rev_power <= 32767
      modifies this`f_gain, this`f_averagePower, this`f_revAveragePower
      ensures Valid()
      ensures f_averagePower == Stored(Smooth(old(f_averagePower), powerLevel), maxLevel, rev_power)
      ensures f_revAveragePower == if rev_power > 0 then Smooth(old(f_revAveragePower), rev_power) else 0
      ensures var average := Smooth(old(f_averagePower), powerLevel);
              var action := ChooseAction(maxLevel, rev_power, average, f_revAveragePower, handsfree);
              var maxGain := MaxGain(f_targetLevel, bufMaxLevel);
              && f_gain == NextGain(old(f_gain), action, maxGain, f_min_gain, f_max_gain) <= maxGain
              && prev_gain == if maxGain < old(f_gain) then maxGain else old(f_gain)
    {
      hide NextGain, ChooseAction, Smooth, Ring, GainFits, MaxGain;
      prev_gain := f_gain;
      var action := Direction(maxLevel, powerLevel, rev_power, handsfree);
      var maxGain := I32(f_targetLevel * ONE) / bufMaxLevel;
      if maxGain < ONE { maxGain := ONE; }
      if maxGain < prev_gain { prev_gain := maxGain; }
      MaxGainIs(f_targetLevel, bufMaxLevel);
      NextGainBounds(f_gain, action, maxGain, f_min_gain, f_max_gain);
      UpIsLoud(maxLevel, rev_power, Smooth(old(f_averagePower), powerLevel), f_revAveragePower, handsfree);
      SafeStep(Settings(), f_gain, action, bufMaxLevel);
      StepGain(action, maxGain);
    }

    /** Scales the block in place while the gain moves from prev_gain to f_gain. */
    method ApplyRamp(data: array<int>, prev_gain: nat, ghost bufMaxLevel: nat)
      requires f_targetLevel <= 32767 && 0 < bufMaxLevel <= 32767 && 2 <= data.Length
      requires prev_gain <= MaxGain(f_targetLevel, bufMaxLevel) && f_gain <= MaxGain(f_targetLevel, bufMaxLevel)
      requires prev_gain < GAIN_LIMIT && f_gain < GAIN_LIMIT
      requires forall i | 0 <= i < data.Length :: Abs(data[i]) <= bufMaxLevel
      modifies data
      ensures data[..] == Ramp(old(data[..]), prev_gain, f_gain)
      ensures forall i | 0 <= i < data.Length :: Abs(data[i]) <= Max(f_targetLevel, bufMaxLevel)
    {
      hide MaxGain, Ramp, Scaled, RampGain;
      ghost var d := data[..];
      ghost var out := Ramp(d, prev_gain, f_gain);
      RampAt(d, prev_gain, f_gain);
      var ginc := TruncDiv(f_gain - prev_gain, data.Length - 1);
      for i := 0 to data.Length
        invariant forall j | 0 <= j < i :: data[j] == out[j] && Abs(data[j]) <= Max(f_targetLevel, bufMaxLevel)
        invariant forall j | i <= j < data.Length :: data[j] == d[j]
      {
        ghost var g := RampGain(prev_gain, f_gain, data.Length, i);
        RampGainBetween(prev_gain, f_gain, data.Length, i);
        RampGainIs(prev_gain, f_gain, data.Length, i);
        ScaledFits(data[i], g, f_targetLevel, bufMaxLevel);
        ScaledIs(data[i], g);
        var f := I32(data[i] * I32(prev_gain + I32(i * ginc))) / ONE;
        data[i] := f;
      }
    }

    /** One block. */
    method Process(data: array<int>, rev_power: int, handsfree: bool, wantLevel: bool)
      returns (powerLevel: nat, level: nat)
      requires Valid() && Samples(data[..]) && 2 <= data.Length <= 0xFFFF && rev_power <= 32767
      requires data != f_levels && data != f_RVolsAGC
      modifies this`f_gain, this`f_averagePower, this`f_revAveragePower, this`f_RVolsAGCPos, this`peaks
      modifies f_RVolsAGC, f_levels, data
      ensures Valid() && Model() == Advance(Settings(), old(Model()), Block(old(data[..]), rev_power, handsfree))
      ensures forall i | 0 <= i < data.Length :: Abs(data[i]) <= Max(f_targetLevel, RecentPeak(peaks, RVOL_COUNT))
      ensures var d, peak := old(data[..]), RecentPeak(peaks, RVOL_COUNT);
              if peak == 0 then data[..] == d
              else
                var maxGain := MaxGain(f_targetLevel, peak);
                var prev := if maxGain < old(f_gain) then maxGain else old(f_gain);
                data[..] == if f_gain == ONE then d else Ramp(d, prev, f_gain)
      ensures powerLevel == BlockPower(old(data[..]), f_targetLevel, f_expectedMaxLevel)
      ensures wantLevel ==> IsLoudness(old(data[..]), level)
    {
      hide Peak, SumAbs, CountAt, Ring, RecentPeak, MaxGain, NextGain, ChooseAction, Smooth, Ramp, IsLoudness;
      ghost var d := data[..];
      var size := data.Length;
      var maxLevel, total := Measure(data);
      assert data[..] == d;
      PeakFits(d);
      LoudnessSizes(d, 0);
      AveragePowerFits(total, size, f_targetLevel, f_expectedMaxLevel);
      powerLevel := I32(total / size * f_targetLevel) / f_expectedMaxLevel;
      if powerLevel > 32767 { powerLevel := 32767; }
      level := 0;
      if wantLevel {
        level := Loudness(d, size);
      }
      var bufMaxLevel := PushPeak(maxLevel);
      if bufMaxLevel > 0 {
        var prev_gain := UpdateGain(maxLevel, bufMaxLevel, powerLevel, rev_power, handsfree);
        GainAllowed(f_targetLevel, bufMaxLevel);
        if f_gain != ONE {
          ApplyRamp(data, prev_gain, bufMaxLevel);
        }
      }
    }
  }

  /** The cell of the j-th most recent peak. */
  function Slot(pos: nat, j: nat): (c: nat)
    requires pos < RVOL_COUNT && 1 <= j <= RVOL_COUNT
    ensures c < RVOL_COUNT
  {
    if j <= pos then pos - j else pos + RVOL_COUNT - j
  }

  ghost predicate Ring(cells: seq<int>, pos: nat, peaks: seq<nat>)
  {
    |cells| == RVOL_COUNT && pos < RVOL_COUNT &&
    forall j | 1 <= j <= RVOL_COUNT :: cells[Slot(pos, j)] == Back(peaks, j)
  }

  lemma RingPush(cells: seq<int>, pos: nat, peaks: seq<nat>, p: nat)
    requires Ring(cells, pos, peaks)
    ensures Ring(cells[pos := p], if pos + 1 >= RVOL_COUNT then 0 else pos + 1, peaks + [p])
  {
    var pos', peaks' := if pos + 1 >= RVOL_COUNT then 0 else pos + 1, peaks + [p];
    forall j | 1 <= j <= RVOL_COUNT ensures cells[pos := p][Slot(pos', j)] == Back(peaks', j) {
      if j > 1 {
        assert Slot(pos', j) == Slot(pos, j - 1) != pos;
        assert Back(peaks', j) == Back(peaks, j - 1);
      }
    }
  }

  lemma {:induction false} RecentPeakBounds(peaks: seq<nat>, n: nat)
    ensures forall j | 1 <= j <= n :: Back(peaks, j) <= RecentPeak(peaks, n)
    ensures RecentPeak(peaks, n) == 0 || exists j :: 1 <= j <= n && Back(peaks, j) == RecentPeak(peaks, n)
  {
    hide Back;
    if n > 0 {
      RecentPeakBounds(peaks, n - 1);
    }
  }

  lemma RingMax(cells: seq<int>, pos: nat, peaks: seq<nat>, m: nat)
    requires Ring(cells, pos, peaks) && |peaks| > 0
    requires forall j | 0 <= j < RVOL_COUNT :: cells[j] <= m
    requires m == 0 || exists j :: 0 <= j < RVOL_COUNT && cells[j] == m
    ensures m == RecentPeak(peaks, RVOL_COUNT) && peaks[|peaks| - 1] <= m
  {
    assert Back(peaks, 1) == peaks[|peaks| - 1];
    RecentPeakBounds(peaks, RVOL_COUNT);
    var r := RecentPeak(peaks, RVOL_COUNT);
    hide RecentPeak, Back;
    if r != 0 {
      var j :| 1 <= j <= RVOL_COUNT && Back(peaks, j) == r;
      assert cells[Slot(pos, j)] == r;
    }
    if m != 0 {
      var i :| 0 <= i < RVOL_COUNT && cells[i] == m;
      var j := if i < pos then pos - i else pos + RVOL_COUNT - i;
      assert Slot(pos, j) == i;
      assert Back(peaks, j) <= r;
    }
  }

  lemma QuotientAtMost(t: nat, c: nat, m: nat)
    requires c > 0 && t <= m * c
    ensures t / c <= m
  {
    assert (t / c) * c <= t;
    if t / c > m { ProductMonotone(m + 1, c, t / c, c); }
  }

  lemma SumFits(c: nat, t: nat, size: nat)
    requires c <= size <= 0xFFFF && t <= 32767 * c
    ensures t < 0x8000_0000
  {
  }

  /** One more magnitude, counted from the top, within 32 bits. */
  lemma LoudnessNext(d: seq<int>, v: nat)
    requires Samples(d) && |d| <= 0xFFFF
    ensures CountFrom(d, v) == CountFrom(d, v + 1) + CountAt(d, v) <= |d|
    ensures SumFrom(d, v) == SumFrom(d, v + 1) + v * CountAt(d, v) < 0x8000_0000
    ensures 0 <= v * CountAt(d, v)
  {
    hide CountFrom, SumFrom, CountAt, Samples;
    LoudnessStep(d, v);
    LoudnessSizes(d, v);
    ProductMonotone(0, 0, v, CountAt(d, v));
    SumFits(CountFrom(d, v), SumFrom(d, v), |d|);
  }

  lemma RecentPeakLimit(peaks: seq<nat>, n: nat, limit: nat)
    requires forall i | 0 <= i < |peaks| :: peaks[i] <= limit
    ensures RecentPeak(peaks, n) <= limit
  {
    RecentPeakBounds(peaks, n);
  }

  lemma LoudnessMean(d: seq<int>, v: nat)
    requires Samples(d) && CountFrom(d, v + 1) <= |d| / 16 < CountFrom(d, v)
    ensures IsLoudness(d, Mean(SumFrom(d, v), CountFrom(d, v))) && Mean(SumFrom(d, v), CountFrom(d, v)) <= 32767
  {
    LoudnessSizes(d, v);
    QuotientAtMost(SumFrom(d, v), CountFrom(d, v), 32767);
  }

  lemma PeakFits(d: seq<int>)
    requires Samples(d)
    ensures Peak(d) <= 32767 && forall i | 0 <= i < |d| :: Abs(d[i]) <= Peak(d)
  {
    forall i | 0 <= i < |d| ensures Abs(d[i]) <= Peak(d) { PeakBounds(d, i); }
    PeakLimit(d);
  }

  lemma {:induction false} PeakLimit(d: seq<int>)
    requires Samples(d)
    ensures Peak(d) <= 32767
  {
    if d != [] { PeakLimit(d[..|d| - 1]); }
  }

  lemma AveragePowerFits(total: nat, size: nat, target: nat, expected: nat)
    requires size > 0 && total <= 32767 * size && target <= 32767 && expected > 0
    ensures total / size <= 32767 && 0 <= total / size * target < 0x8000_0000
  {
    QuotientAtMost(total, size, 32767);
    ProductMonotone(total / size, target, 32767, 32767);
  }

  lemma MaxGainIs(target: nat, peak: nat)
    requires peak > 0
    ensures MaxGain(target, peak) == Max(ONE, target * ONE / peak)
    ensures target <= 32767 ==> MaxGain(target, peak) < 0x8000_0000
  {
  }

  lemma GainAllowed(target: nat, peak: nat)
    requires peak > 0
    ensures MaxGain(target, peak) >= ONE
  {
  }

  lemma RampAt(d: seq<int>, from: int, to: int)
    requires |d| >= 2
    ensures |Ramp(d, from, to)| == |d|
    ensures forall i | 0 <= i < |d| :: Ramp(d, from, to)[i] == Scaled(d[i], RampGain(from, to, |d|, i))
  {
  }

  lemma RampGainIs(from: int, to: int, n: nat, i: nat)
    requires n >= 2 && i < n
    ensures RampGain(from, to, n, i) == from + i * TruncDiv(to - from, n - 1)
  {
  }

  lemma ScaledIs(x: int, g: int)
    ensures Scaled(x, g) == x * g / ONE
  {
  }
}
