/** What the gain control promises, in terms of peaks, powers and gains before and after a block, with the numbers
    written out. */
module GainLaws {
  import opened Arithmetic
  import opened Agc

  function Min(x: int, y: int): int { if x < y then x else y }

  // ---- Power ----

  /** A smoothed power moves 52/1024 of the way to the new value, rounded down, and so never past it. */
  lemma SmoothMoves(average: nat, value: nat)
    ensures var r := Smooth(average, value);
            && 1024 * (r - average) <= 52 * (value - average) < 1024 * (r - average) + 1024
            && Min(average, value) <= r <= Max(average, value)
            && (value > average ==> 18 * (r - average) <= value - average)
            && (value < average ==> 18 * (average - r - 1) <= average - value)
  {
  }

  /** Changing one sample changes the total magnitude by as much as the sample's. */
  lemma {:induction false} SumAbsAt(d: seq<int>, i: nat, x: int)
    requires i < |d|
    ensures SumAbs(d[i := x]) - SumAbs(d) == Abs(x) - Abs(d[i])
  {
    var n, e := |d| - 1, d[i := x];
    if i < n {
      SumAbsAt(d[..n], i, x);
      assert e[..n] == d[..n][i := x];
    } else {
      assert e[..n] == d[..n];
    }
  }

  /** One sample counts once, with its magnitude, from every level up to that magnitude. */
  lemma {:induction false} LoudnessAt(d: seq<int>, i: nat, x: int, v: nat)
    requires i < |d|
    ensures var was, now := Abs(d[i]) >= v, Abs(x) >= v;
            && CountFrom(d[i := x], v) - CountFrom(d, v) == (if now then 1 else 0) - (if was then 1 else 0)
            && SumFrom(d[i := x], v) - SumFrom(d, v) == (if now then Abs(x) else 0) - (if was then Abs(d[i]) else 0)
  {
    var n, e := |d| - 1, d[i := x];
    if i < n {
      LoudnessAt(d[..n], i, x, v);
      assert e[..n] == d[..n][i := x];
    } else {
      assert e[..n] == d[..n];
    }
  }

  lemma {:induction false} SilenceHasNoPower(d: seq<int>)
    requires forall i | 0 <= i < |d| :: d[i] == 0
    ensures SumAbs(d) == 0 && Peak(d) == 0
  {
    if d != [] { SilenceHasNoPower(d[..|d| - 1]); }
  }

  lemma {:induction false} PeakAttained(d: seq<int>)
    ensures d != [] ==> exists i :: 0 <= i < |d| && Abs(d[i]) == Peak(d)
  {
    if d != [] {
      var n := |d| - 1;
      PeakAttained(d[..n]);
      if Abs(d[n]) < Peak(d[..n]) {
        var i :| 0 <= i < n && Abs(d[..n][i]) == Peak(d[..n]);
        assert Abs(d[i]) == Peak(d);
      } else {
        assert Abs(d[n]) == Peak(d);
      }
    }
  }

  /** The mean magnitude m times the target over the expected level, rounded down and cut to 32767. */
  lemma BlockPowerIs(d: seq<int>, m: nat, target: nat, expected: nat)
    requires |d| > 0 && expected > 0
    requires m * |d| <= SumAbs(d) < m * |d| + |d|
    ensures var p := BlockPower(d, target, expected);
            && p <= 32767 && p * expected <= m * target
            && (p < 32767 ==> m * target < p * expected + expected)
  {
    QuotientIs(SumAbs(d), |d|, m);
    hide SumAbs;
    var p := m * target / expected;
    assert p * expected <= m * target < p * expected + expected;
    if p > 32767 { ProductMonotone(32767, expected, p, expected); }
  }

  lemma QuotientIs(x: nat, y: nat, q: nat)
    requires y > 0 && q * y <= x < q * y + y
    ensures x / y == q
  {
    var r := x / y;
    assert r * y <= x < r * y + y;
    if r < q { ProductMonotone(r + 1, y, q, y); }
    if q < r { ProductMonotone(q + 1, y, r, y); }
  }

  /** The recent peak is the greatest of the last 25 block peaks. */
  lemma RecentPeakIs(peaks: seq<nat>)
    requires peaks != []
    ensures var from, p := Max(0, |peaks| - 25), RecentPeak(peaks, RVOL_COUNT);
            && (forall i | from <= i < |peaks| :: peaks[i] <= p)
            && exists i :: from <= i < |peaks| && peaks[i] == p
  {
    var from, p := Max(0, |peaks| - 25), RecentPeak(peaks, RVOL_COUNT);
    RecentPeakBounds(peaks, RVOL_COUNT);
    hide RecentPeak;
    forall i | from <= i < |peaks| ensures peaks[i] <= p {
      assert Back(peaks, |peaks| - i) == peaks[i];
    }
    if p == 0 {
      assert peaks[|peaks| - 1] == p;
    } else {
      var j :| 1 <= j <= RVOL_COUNT && Back(peaks, j) == p;
      assert peaks[|peaks| - j] == p;
    }
  }

  /** The gain allowed for a peak is the largest that scales it to the target level at most, but at least one. */
  lemma MaxGainIsLargest(target: nat, peak: nat)
    requires peak > 0
    ensures var m := MaxGain(target, peak);
            && m >= 0x1_0000 && target * 0x1_0000 < m * peak + peak
            && (m > 0x1_0000 ==> m * peak <= target * 0x1_0000)
  {
    var g := target * ONE / peak;
    assert g * peak <= target * ONE < g * peak + peak;
    if g < ONE { ProductMonotone(g + 1, peak, ONE, peak); }
  }

  // ---- The gain after one block ----

  /** A configuration and a state that a controller can be in. */
  ghost predicate Ready(c: Config, s: Control) {
    c.lo <= ONE <= c.hi && c.lo <= s.gain <= c.hi && c.expected > 0
  }

  /** What the loudest of the last 25 blocks allows. */
  function Allowed(c: Config, s: Control, b: Block): nat
    requires RecentPeakWith(s, b) > 0
  {
    MaxGain(c.target, RecentPeakWith(s, b))
  }

  /** The gain without echo: it climbs by 3276, or to 65536 at once from below, while more than a tenth of headroom is
      left; it comes down to what the peak allows, or to nine tenths of that when it was more than a twentieth above. */
  ghost predicate Headroom(c: Config, gain: nat, allowed: nat, after: nat) {
    if allowed > gain * 1126 / 1024 then after == if gain > 62914 then Min(c.hi, gain + 3276) else 65536
    else if allowed >= gain then after == gain
    else after == Max(c.lo, if allowed < gain * 972 / 1024 then allowed * 921 / 1024 else allowed)
  }

  lemma UpIsHeadroom(c: Config, gain: nat, allowed: nat)
    requires c.lo <= ONE <= c.hi && c.lo <= gain <= c.hi && allowed >= ONE
    ensures Headroom(c, gain, allowed, NextGain(gain, Up, allowed, c.lo, c.hi))
  {
  }

  lemma KeepComesDown(c: Config, gain: nat, allowed: nat)
    requires c.lo <= ONE <= c.hi && c.lo <= gain <= c.hi && allowed >= ONE
    ensures var g := NextGain(gain, Keep, allowed, c.lo, c.hi);
            if allowed >= gain then g == gain else Headroom(c, gain, allowed, g)
  {
  }

  lemma RatioOf(reverse: nat, average: nat, k: nat)
    requires average >= 1
    ensures reverse / average > k <==> reverse >= (k + 1) * average
  {
    var q := reverse / average;
    assert q * average <= reverse < q * average + average;
    if q > k { ProductMonotone(k + 1, average, q, average); }
    if q <= k { ProductMonotone(q + 1, average, k + 1, average); }
  }

  /** The answer to echo, by the smoothed power reverse of the other side and a of the own side. */
  ghost predicate Answers(c: Config, gain: nat, allowed: nat, a: nat, reverse: nat, loud: bool, after: nat) {
    && (loud || reverse >= 11 * a ==>
          && after <= Max(c.lo, gain - 3276)
          && (allowed >= gain ==> after == Max(c.lo, gain - 3276)))
    && (!loud && 6 * a <= reverse < 11 * a ==>
          && after <= Max(65536, gain - 3276)
          && (allowed >= gain ==> after == Max(65536, gain - 3276)))
    && (!loud && 3 * a <= reverse < 6 * a ==>
          && after <= gain
          && if allowed >= gain then after == gain else Headroom(c, gain, allowed, after))
    && (!loud && reverse < 3 * a ==> Headroom(c, gain, allowed, after))
  }

  lemma ActionAnswers(c: Config, gain: nat, allowed: nat, peak: nat, rev: int, average: nat, reverse: nat, free: bool)
    requires c.lo <= ONE <= c.hi && c.lo <= gain <= c.hi && allowed >= ONE && peak >= 700 && rev > 0
    ensures var action := ChooseAction(peak, rev, average, reverse, free);
            Answers(c, gain, allowed, Max(1, average), reverse, free && rev >= 500,
                    NextGain(gain, action, allowed, c.lo, c.hi))
  {
    hide NextGain, Headroom;
    var a := Max(1, average);
    RatioOf(reverse, a, 10);
    RatioOf(reverse, a, 5);
    RatioOf(reverse, a, 2);
    EchoLowersGain(gain, allowed, c.lo, c.hi);
    if gain <= allowed { AtLeastOne(c, gain, allowed); }
    UpIsHeadroom(c, gain, allowed);
    KeepComesDown(c, gain, allowed);
  }

  /** A block of peak 700 or more while the other side is heard: the gain answers to the smoothed powers, of which the
      own one counts as at least one. */
  lemma EchoChooses(c: Config, s: Control, b: Block)
    requires Ready(c, s) && b.data != [] && Peak(b.data) >= 700 && b.rev_power > 0
    ensures RecentPeakWith(s, b) > 0
    ensures var t := Advance(c, s, b);
            && t.average == Max(1, Smooth(s.average, BlockPower(b.data, c.target, c.expected)))
            && t.reverse == Smooth(s.reverse, b.rev_power)
            && Answers(c, s.gain, Allowed(c, s, b), t.average, t.reverse, b.handsfree && b.rev_power >= 500, t.gain)
  {
    RiseIsLoud(c, s, b);
    GainAllowed(c.target, RecentPeakWith(s, b));
    hide NextGain, MaxGain, RecentPeakWith, Peak, Smooth, BlockPower, Answers, ChooseAction;
    ActionAnswers(c, s.gain, Allowed(c, s, b), Peak(b.data), b.rev_power, NewAverage(c, s, b), NewReverse(s, b),
                  b.handsfree);
  }

  lemma AtLeastOne(c: Config, gain: nat, allowed: nat)
    requires c.lo <= ONE <= c.hi && c.lo <= gain <= c.hi && gain <= allowed && allowed >= ONE
    ensures NextGain(gain, DownToOne, allowed, c.lo, c.hi) == Max(ONE, gain - F0_05)
  {
  }

  /** With nothing heard of the other side the gain follows the headroom; quiet blocks leave it where it is or take it
      down to what the recent peak allows; and while nothing but silence was heard lately only the peak is kept. */
  lemma WithoutEcho(c: Config, s: Control, b: Block)
    requires Ready(c, s) && b.data != []
    ensures var t, recent := Advance(c, s, b), RecentPeakWith(s, b);
            && t.peaks == s.peaks + [Peak(b.data)]
            && (recent == 0 ==> t == s.(peaks := t.peaks))
            && (recent > 0 && b.rev_power <= 0 ==> t.reverse == 0)
            && (recent > 0 && Peak(b.data) < 700 ==>
                  var allowed := Allowed(c, s, b);
                  if allowed >= s.gain then t.gain == s.gain else Headroom(c, s.gain, allowed, t.gain))
            && (recent > 0 && Peak(b.data) >= 700 && b.rev_power <= 0 ==>
                  Headroom(c, s.gain, Allowed(c, s, b), t.gain))
  {
    hide Peak, RecentPeakWith, NewAverage, MaxGain, NextGain, Headroom, Smooth;
    var recent := RecentPeakWith(s, b);
    if recent > 0 {
      GainAllowed(c.target, recent);
      UpIsHeadroom(c, s.gain, MaxGain(c.target, recent));
      KeepComesDown(c, s.gain, MaxGain(c.target, recent));
    }
  }

  // ---- The ramp ----

  /** The ramp starts at the old gain, takes equal steps, and ends less than its number of steps short of the new
      gain. */
  lemma RampGoesAcross(from: int, to: int, n: nat)
    requires n >= 2
    ensures RampGain(from, to, n, 0) == from
    ensures from <= to ==> 0 <= to - RampGain(from, to, n, n - 1) <= n - 2
    ensures to <= from ==> 0 <= RampGain(from, to, n, n - 1) - to <= n - 2
  {
    var total, k := Abs(to - from), n - 1;
    var q := total / k;
    assert q * k <= total < q * k + k;
    assert k * (-q) == -(k * q);
  }

  lemma RampStepsEqual(from: int, to: int, n: nat, i: nat, j: nat)
    requires n >= 2
    ensures RampGain(from, to, n, i + 1) - RampGain(from, to, n, i)
            == RampGain(from, to, n, j + 1) - RampGain(from, to, n, j)
  {
    hide TruncDiv;
    var q := TruncDiv(to - from, n - 1);
    assert (i + 1) * q == i * q + q && (j + 1) * q == j * q + q;
  }

  /** A scaled sample is the product with the gain in 65536ths, rounded down; unit gain changes nothing. */
  lemma ScaledIsProduct(x: int, g: int)
    ensures Scaled(x, g) * 65536 <= x * g < Scaled(x, g) * 65536 + 65536
    ensures Scaled(x, 65536) == x
  {
  }
}
