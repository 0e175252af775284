/** The rate gate of RequestHolder.AddFrame: a 16.16 accumulator that lets a frame through when its integer part
    moves. */
module RateGate {
  import opened Arithmetic

  const ONE := 0x1_0000
  const MAX_FRAME_CONST := 100 * 0x1_0000

  datatype Gate = Gate(current: nat, inc: nat)

  /** The accumulator part of AddFrame for a request with frame interval m_interval. */
  function Pass(g: Gate, m_interval: nat, interval: nat): (Gate, bool)
  {
    if m_interval == 0 then (g, true)
    else
      var g1 := if 0 < interval < m_interval then Gate(g.current, interval * ONE / m_interval) else Gate(0, 0);
      if g1.inc == 0 then (g1, true)
      else if g1.current == 0 then (Gate(g1.inc, g1.inc), true)
      else
        var before := if g1.current > MAX_FRAME_CONST then g1.current - MAX_FRAME_CONST else g1.current;
        (Gate(before + g1.inc, g1.inc), before / ONE != (before + g1.inc) / ONE)
  }

  /** The gate after n offers at a constant interval, and how many it let through. */
  function Offers(g: Gate, m_interval: nat, c: nat, n: nat): (Gate, nat)
  {
    if n == 0 then (g, 0)
    else
      var (g1, passed) := Offers(g, m_interval, c, n - 1);
      var (g2, pass) := Pass(g1, m_interval, c);
      (g2, passed + if pass then 1 else 0)
  }

  lemma IncrementInRange(m_interval: nat, c: nat)
    requires 0 < c < m_interval < 0x8000
    ensures 0 < c * ONE / m_interval < ONE
  {
    var q, r := c * ONE / m_interval, c * ONE % m_interval;
    assert c * ONE == q * m_interval + r;
    assert q == 0 ==> q * m_interval == 0;
    assert q >= ONE ==> q * m_interval >= ONE * m_interval;
  }

  lemma PassUnfolds(g: Gate, m_interval: nat, c: nat, inc: nat)
    requires 0 < c < m_interval && inc == c * ONE / m_interval && inc > 0 && g.current > 0
    ensures var before := if g.current > MAX_FRAME_CONST then g.current - MAX_FRAME_CONST else g.current;
            Pass(g, m_interval, c) == (Gate(before + inc, inc), before / ONE != (before + inc) / ONE)
  {
  }

  /** One more offer: the accumulator follows the running total, and lets a frame through exactly when the total
      passes a multiple of 2^16; a wrap takes away a multiple of 2^16 and so changes neither. */
  lemma PassStep(g: Gate, m_interval: nat, c: nat, inc: nat, total: nat, w: nat) returns (w': nat)
    requires 0 < c < m_interval && inc == c * ONE / m_interval && 0 < inc < ONE
    requires 0 < g.current <= MAX_FRAME_CONST + inc && g.current + w * MAX_FRAME_CONST == total
    ensures var (g', pass) := Pass(g, m_interval, c);
            && g'.inc == inc && 0 < g'.current <= MAX_FRAME_CONST + inc
            && g'.current + w' * MAX_FRAME_CONST == total + inc
            && (total + inc) / ONE == total / ONE + if pass then 1 else 0
  {
    PassUnfolds(g, m_interval, c, inc);
    hide Pass;
    w' := Wrapped(g.current, inc, total, w);
  }

  lemma Wrapped(current: nat, inc: nat, total: nat, w: nat) returns (w': nat)
    requires 0 < inc < ONE && 0 < current <= MAX_FRAME_CONST + inc && current + w * MAX_FRAME_CONST == total
    ensures var before := if current > MAX_FRAME_CONST then current - MAX_FRAME_CONST else current;
            && 0 < before + inc <= MAX_FRAME_CONST + inc
            && before + inc + w' * MAX_FRAME_CONST == total + inc
            && (total + inc) / ONE == total / ONE + if before / ONE != (before + inc) / ONE then 1 else 0
  {
    w' := if current > MAX_FRAME_CONST then w + 1 else w;
    Carry(if current > MAX_FRAME_CONST then current - MAX_FRAME_CONST else current, inc, 100 * w');
  }

  lemma Carry(before: nat, inc: nat, k: nat)
    requires inc < ONE
    ensures (before + k * ONE + inc) / ONE ==
            (before + k * ONE) / ONE + if before / ONE != (before + inc) / ONE then 1 else 0
  {
  }

  lemma OffersUnfold(m_interval: nat, c: nat, n: nat)
    requires n > 0
    ensures var (g, passed) := Offers(Gate(0, 0), m_interval, c, n - 1);
            var (g', pass) := Pass(g, m_interval, c);
            Offers(Gate(0, 0), m_interval, c, n) == (g', passed + if pass then 1 else 0)
  {
    hide Pass;
  }

  lemma FirstOffer(m_interval: nat, c: nat, inc: nat)
    requires 0 < c < m_interval && inc == c * ONE / m_interval && 0 < inc
    ensures Offers(Gate(0, 0), m_interval, c, 1) == (Gate(inc, inc), 1)
  {
    assert Offers(Gate(0, 0), m_interval, c, 0) == (Gate(0, 0), 0);
  }

  lemma OneMoreTime(n: nat, inc: nat)
    requires n > 0
    ensures (n - 1) * inc + inc == n * inc
  {
  }

  /** The accumulator is n increments, less a whole number of wraps. */
  lemma {:induction false} AccumulatorAfter(m_interval: nat, c: nat, n: nat, inc: nat) returns (w: nat)
    requires 0 < c < m_interval < 0x8000 && n > 0 && inc == c * ONE / m_interval
    ensures var (g, passed) := Offers(Gate(0, 0), m_interval, c, n);
            && g.inc == inc && 0 < g.current <= MAX_FRAME_CONST + inc
            && g.current + w * MAX_FRAME_CONST == n * inc
            && passed == 1 + n * inc / ONE
  {
    hide Pass, Offers;
    IncrementInRange(m_interval, c);
    OffersUnfold(m_interval, c, n);
    if n == 1 {
      FirstOffer(m_interval, c, inc);
      w := 0;
    } else {
      var w0 := AccumulatorAfter(m_interval, c, n - 1, inc);
      var (g, passed) := Offers(Gate(0, 0), m_interval, c, n - 1);
      w := PassStep(g, m_interval, c, inc, (n - 1) * inc, w0);
      OneMoreTime(n, inc);
    }
  }

  /** Thinning is exact: n >= 1 offers at interval c pass 1 + floor(n * inc / 2^16) times, whatever wraps. */
  lemma ThinningIsExact(m_interval: nat, c: nat, n: nat)
    requires 0 < c < m_interval < 0x8000 && n > 0
    ensures Offers(Gate(0, 0), m_interval, c, n).1 == 1 + n * (c * ONE / m_interval) / ONE
  {
    var inc := c * ONE / m_interval;
    var w := AccumulatorAfter(m_interval, c, n, inc);
  }

  /** A request without an interval, an offer without one, and an offer that is no more frequent than the request asks
      for: all pass the gate, from whatever state, and a gate in use starts over. */
  lemma UngatedPasses(g: Gate, m_interval: nat, interval: nat)
    requires m_interval == 0 || interval == 0 || interval >= m_interval
    ensures Pass(g, m_interval, interval).1
    ensures Pass(g, m_interval, interval).0 == if m_interval == 0 then g else Gate(0, 0)
  {
  }

  lemma {:induction false} UngatedPassAll(g: Gate, m_interval: nat, c: nat, n: nat)
    requires m_interval == 0 || c == 0 || c >= m_interval
    ensures Offers(g, m_interval, c, n).1 == n
  {
    hide Pass;
    if n > 0 {
      UngatedPassAll(g, m_interval, c, n - 1);
      UngatedPasses(Offers(g, m_interval, c, n - 1).0, m_interval, c);
    }
  }

  /** A gated offer to a gate that stands at zero passes and starts the accumulator. */
  lemma FirstOfferPasses(g: Gate, m_interval: nat, interval: nat)
    requires g.current == 0
    ensures Pass(g, m_interval, interval).1
    ensures 0 < interval < m_interval ==> Pass(g, m_interval, interval).0.current == interval * 0x1_0000 / m_interval
  {
  }
}
