/** The echo canceller's latency buffers: played frames wait in lat_buf and in a delay queue until capture needs them as
    references. Capture drops its lock while it works on a frame, so playback and reset may run in between. */
module EchoBuffers {
  import opened Wrappers
  import opened Sequences

  type Samples = seq<int>

  /** Frames in lat_buf, oldest first, with None for inserted silence; the number of frames in lat_free; whether
      capture has a frame in hand; the delay queue. For the record: the references used and the frames played since
      the last reset. */
  datatype State = State(buf: seq<Option<Samples>>, free: nat, in_hand: bool, ready: bool, delay: seq<Samples>,
                         used: seq<Option<Samples>>, played: seq<Samples>)

  /** Capture is split where it releases the lock. */
  datatype Event = Playback(frm: Samples) | CaptureBegins | CaptureEnds | ResetAll

  function Initial(lat_cnt: nat): State {
    State([], lat_cnt, false, false, [], [], [])
  }

  function Step(s: State, e: Event): State {
    match e
    case Playback(frm) =>
      var t := s.(delay := s.delay + [frm], played := s.played + [frm]);
      if s.ready then t
      else if s.free == 0 then t.(ready := true)
      else t.(free := s.free - 1, buf := s.buf + [Some(t.delay[0])], delay := t.delay[1..])
    case CaptureBegins =>
      if !s.ready || s.in_hand || s.buf == [] then s
      else s.(buf := s.buf[1..], in_hand := true, used := s.used + [s.buf[0]])
    case CaptureEnds =>
      if !s.in_hand then s
      else if s.delay == [] then s.(buf := s.buf + [None], in_hand := false)
      else s.(buf := s.buf + [Some(s.delay[0])], delay := s.delay[1..], in_hand := false)
    case ResetAll =>
      s.(buf := [], free := s.free + |s.buf|, ready := false, delay := [], used := [], played := [])
  }

  function Run(s: State, events: seq<Event>): State {
    if events == [] then s else Step(Run(s, events[..|events| - 1]), events[|events| - 1])
  }

  /** A sequence without its silences. */
  function Sounding(q: seq<Option<Samples>>): seq<Samples> {
    if q == [] then []
    else Sounding(q[..|q| - 1]) + match q[|q| - 1] case None => [] case Some(frm) => [frm]
  }

  lemma Silence(q: seq<Option<Samples>>, x: Option<Samples>)
    ensures Sounding(q + [x]) == Sounding(q) + match x case None => [] case Some(frm) => [frm]
  {
    assert (q + [x])[..|q|] == q;
  }

  ghost predicate Invariant(s: State, lat_cnt: nat) {
    && |s.buf| + s.free + (if s.in_hand then 1 else 0) == lat_cnt
    && (s.ready ==> s.free == 0)
    && (!s.ready ==> s.delay == [])
    && Sounding(s.used + s.buf) + s.delay == s.played
  }

  /** Appending to lat_buf what the delay queue gives, or silence. */
  lemma Fetched(s: State, lat_cnt: nat, x: Option<Samples>, delay: seq<Samples>)
    requires Invariant(s, lat_cnt) && (!s.ready ==> delay == [])
    requires x.None? ==> delay == s.delay
    requires x.Some? ==> s.delay == [x.value] + delay
    ensures s.in_hand ==> Invariant(s.(buf := s.buf + [x], delay := delay, in_hand := false), lat_cnt)
  {
    hide Sounding;
    var all := s.used + s.buf;
    Silence(all, x);
    assert s.used + (s.buf + [x]) == all + [x];
    if x.Some? { Regroup(Sounding(all), x.value, delay); }
  }

  lemma Regroup(p: seq<Samples>, x: Samples, d: seq<Samples>)
    ensures p + [x] + d == p + ([x] + d)
  {
  }

  lemma PlaybackKeepsInvariant(s: State, frm: Samples, lat_cnt: nat)
    requires Invariant(s, lat_cnt)
    ensures Invariant(Step(s, Playback(frm)), lat_cnt)
  {
    hide Sounding;
    var all := s.used + s.buf;
    if !s.ready && s.free > 0 {
      Silence(all, Some(frm));
      assert s.used + (s.buf + [Some(frm)]) == all + [Some(frm)];
      assert s.delay + [frm] == [frm];
    }
  }

  lemma StepKeepsInvariant(s: State, e: Event, lat_cnt: nat)
    requires Invariant(s, lat_cnt)
    ensures Invariant(Step(s, e), lat_cnt)
  {
    match e
    case Playback(frm) =>
      PlaybackKeepsInvariant(s, frm, lat_cnt);
    case CaptureBegins =>
      hide Sounding;
      if s.ready && !s.in_hand && s.buf != [] {
        assert (s.used + [s.buf[0]]) + s.buf[1..] == s.used + s.buf;
      }
    case CaptureEnds =>
      hide Sounding;
      if s.in_hand {
        if s.delay == [] {
          Fetched(s, lat_cnt, None, []);
        } else {
          Fetched(s, lat_cnt, Some(s.delay[0]), s.delay[1..]);
        }
      }
    case ResetAll =>
      NothingSounds();
  }

  lemma ReadyMeansFull(s: State, lat_cnt: nat)
    requires Invariant(s, lat_cnt) && s.ready && !s.in_hand
    ensures |s.buf| == lat_cnt
  {
  }

  lemma NothingSounds()
    ensures Sounding([] + []) + [] == []
  {
  }

  /** Whatever the interleaving: no frame is lost, and the references used are the frames played since the last reset,
      each once and in order, with silence in between only. */
  lemma {:induction false} EveryRun(lat_cnt: nat, events: seq<Event>)
    ensures var s := Run(Initial(lat_cnt), events);
            Invariant(s, lat_cnt) && Sounding(s.used) <= s.played
  {
    hide Step;
    if events != [] {
      EveryRun(lat_cnt, events[..|events| - 1]);
      StepKeepsInvariant(Run(Initial(lat_cnt), events[..|events| - 1]), events[|events| - 1], lat_cnt);
    }
    var s := Run(Initial(lat_cnt), events);
    SoundingPrefix(s.used, s.buf);
  }

  lemma {:induction false} SoundingPrefix(p: seq<Option<Samples>>, q: seq<Option<Samples>>)
    ensures Sounding(p) <= Sounding(p + q)
  {
    if q == [] {
      assert p + q == p;
    } else {
      SoundingPrefix(p, q[..|q| - 1]);
      assert p + q == (p + q[..|q| - 1]) + [q[|q| - 1]];
      Silence(p + q[..|q| - 1], q[|q| - 1]);
    }
  }

  /** A capture that finds the buffers ready also finds a frame. */
  lemma CaptureFindsFrame(lat_cnt: nat, events: seq<Event>)
    requires lat_cnt > 0
    ensures var s := Run(Initial(lat_cnt), events); s.ready && !s.in_hand ==> |s.buf| == lat_cnt
  {
    hide Step;
    EveryRun(lat_cnt, events);
  }

  lemma {:induction false} NoSilence(q: seq<Option<Samples>>)
    requires forall k | 0 <= k < |q| :: q[k].Some?
    ensures |Sounding(q)| == |q| && forall k | 0 <= k < |q| :: Sounding(q)[k] == q[k].value
  {
    if q != [] { NoSilence(q[..|q| - 1]); }
  }

  /** Without underrun the k-th reference is the k-th frame played. */
  lemma ReferencesAreInStep(lat_cnt: nat, events: seq<Event>, k: nat)
    requires var s := Run(Initial(lat_cnt), events); k < |s.used| && forall j | 0 <= j < |s.used| :: s.used[j].Some?
    ensures var s := Run(Initial(lat_cnt), events); k < |s.played| && s.used[k] == Some(s.played[k])
  {
    hide Step;
    EveryRun(lat_cnt, events);
    NoSilence(Run(Initial(lat_cnt), events).used);
  }

  // ---- Silence ----

  /** The frame in hand returns with the next played frame that no reference, used or waiting, has yet; with silence iff
      there is none. */
  lemma CaptureFetchesNext(s: State, lat_cnt: nat)
    requires Invariant(s, lat_cnt) && s.in_hand
    ensures var t, n := Step(s, CaptureEnds), |Sounding(s.used + s.buf)|;
            && n <= |s.played| && t.used == s.used && t.played == s.played && !t.in_hand
            && t.buf == s.buf + [if n == |s.played| then None else Some(s.played[n])]
  {
    hide Sounding;
    assert s.played == Sounding(s.used + s.buf) + s.delay;
  }

  ghost predicate NoneSilent(q: seq<Option<Samples>>) {
    forall k | 0 <= k < |q| :: q[k].Some?
  }

  /** No capture ends with every frame played since the last reset used or waiting. */
  ghost predicate Supplied(lat_cnt: nat, events: seq<Event>) {
    forall k: nat | k < |events| && events[k].CaptureEnds? :: Spare(Run(Initial(lat_cnt), events[..k]))
  }

  /** More frames were played than references are used or waiting, or no frame is in hand. */
  predicate Spare(s: State) {
    s.in_hand ==> |s.used| + |s.buf| < |s.played|
  }

  /** Silence is never among the references, used or waiting, during the run. */
  ghost predicate NeverSilent(lat_cnt: nat, events: seq<Event>) {
    forall k: nat | k <= |events| ::
      NoneSilent(Run(Initial(lat_cnt), events[..k]).used) && NoneSilent(Run(Initial(lat_cnt), events[..k]).buf)
  }

  /** One step brings silence iff it ends a capture without a spare frame. */
  lemma StepSilent(s: State, e: Event, lat_cnt: nat)
    requires Invariant(s, lat_cnt) && NoneSilent(s.used) && NoneSilent(s.buf)
    ensures NoneSilent(Step(s, e).used) && NoneSilent(Step(s, e).buf) <==> (e.CaptureEnds? ==> Spare(s))
  {
    hide Sounding;
    if e.CaptureEnds? && s.in_hand {
      CaptureFetchesNext(s, lat_cnt);
      NoSilence(s.used + s.buf);
      var t := Step(s, e);
      assert t.buf[|s.buf|] == if |s.used| + |s.buf| == |s.played| then None else Some(s.played[|s.used| + |s.buf|]);
    }
  }

  lemma FrontOf(events: seq<Event>, k: nat)
    requires k < |events|
    ensures events[..|events| - 1][..k] == events[..k] && events[..|events|] == events
  {
  }

  lemma {:induction false} NeverSilentIff(lat_cnt: nat, events: seq<Event>)
    ensures NeverSilent(lat_cnt, events) <==> Supplied(lat_cnt, events)
  {
    hide Step, Invariant, Spare, NoneSilent;
    if events == [] {
      EmptyRun(lat_cnt, events);
    } else {
      var n := |events| - 1;
      var front, e := events[..n], events[n];
      NeverSilentIff(lat_cnt, front);
      forall k: nat | k <= n ensures front[..k] == events[..k] { FrontOf(events, k); }
      FrontOf(events, n);
      assert events[..n + 1] == events;
      assert NeverSilent(lat_cnt, events) ==> NeverSilent(lat_cnt, front);
      assert Supplied(lat_cnt, events) ==> Supplied(lat_cnt, front);
      EveryRun(lat_cnt, front);
      var s := Run(Initial(lat_cnt), front);
      if NeverSilent(lat_cnt, front) {
        assert front[..n] == front;
        StepSilent(s, e, lat_cnt);
      }
    }
  }

  lemma EmptyRun(lat_cnt: nat, events: seq<Event>)
    requires events == []
    ensures NeverSilent(lat_cnt, events)
  {
  }

  /** Over every run in which no capture ends without a spare frame, reference k is frame k played since the last
      reset, and the references waiting are the frames played next. */
  lemma SuppliedInStep(lat_cnt: nat, events: seq<Event>)
    requires Supplied(lat_cnt, events)
    ensures var s := Run(Initial(lat_cnt), events);
            && |s.used| + |s.buf| <= |s.played|
            && (forall k: nat | k < |s.used| :: s.used[k] == Some(s.played[k]))
            && (forall k: nat | k < |s.buf| :: s.buf[k] == Some(s.played[|s.used| + k]))
  {
    hide Step, Run, Invariant, Sounding, NoneSilent;
    NeverSilentIff(lat_cnt, events);
    EveryRun(lat_cnt, events);
    assert events[..|events|] == events;
    var s := Run(Initial(lat_cnt), events);
    ConsumedFirst(s, lat_cnt);
    NoneSilentInStep(s.used, s.buf, s.played);
  }

  lemma ConsumedFirst(s: State, lat_cnt: nat)
    requires Invariant(s, lat_cnt)
    ensures Sounding(s.used + s.buf) <= s.played
  {
    hide Sounding;
  }

  lemma NoneSilentInStep(used: seq<Option<Samples>>, buf: seq<Option<Samples>>, played: seq<Samples>)
    requires NoneSilent(used) && NoneSilent(buf) && Sounding(used + buf) <= played
    ensures |used| + |buf| <= |played|
    ensures forall k: nat | k < |used| :: used[k] == Some(played[k])
    ensures forall k: nat | k < |buf| :: buf[k] == Some(played[|used| + k])
  {
    hide Sounding;
    var all := used + buf;
    NoSilence(all);
    forall k: nat | k < |used| ensures used[k] == Some(played[k]) {
      assert all[k] == used[k];
    }
    forall k: nat | k < |buf| ensures buf[k] == Some(played[|used| + k]) {
      assert all[|used| + k] == buf[k];
    }
  }

  // ---- Steady state ----

  function Plays(frames: seq<Samples>): seq<Event> {
    seq(|frames|, k requires 0 <= k < |frames| => Playback(frames[k]))
  }

  function Sounds(frames: seq<Samples>): seq<Option<Samples>> {
    seq(|frames|, k requires 0 <= k < |frames| => Some(frames[k]))
  }

  /** The state after nothing but playback: the first lat_cnt frames fill lat_buf, the next makes the buffers ready. */
  function Prefetched(lat_cnt: nat, frames: seq<Samples>): State {
    var n := if |frames| < lat_cnt then |frames| else lat_cnt;
    State(Sounds(frames[..n]), lat_cnt - n, false, |frames| > lat_cnt, frames[n..], [], frames)
  }

  lemma PrefetchStep(lat_cnt: nat, front: seq<Samples>, last: Samples)
    ensures Step(Prefetched(lat_cnt, front), Playback(last)) == Prefetched(lat_cnt, front + [last])
  {
    hide Sounds;
    var frames := front + [last];
    if |front| < lat_cnt {
      PlaysGrow(front, last);
      assert front[..|front|] == front && frames[..|frames|] == frames && frames[|frames|..] == [];
      assert front[|front|..] + [last] == [last];
    } else {
      assert frames[..lat_cnt] == front[..lat_cnt] && frames[lat_cnt..] == front[lat_cnt..] + [last];
    }
  }

  lemma {:induction false} Prefetch(lat_cnt: nat, frames: seq<Samples>)
    ensures Run(Initial(lat_cnt), Plays(frames)) == Prefetched(lat_cnt, frames)
  {
    hide Step;
    if frames == [] {
      assert Plays(frames) == [] && Sounds(frames[..0]) == [];
    } else {
      var front, last := frames[..|frames| - 1], frames[|frames| - 1];
      Prefetch(lat_cnt, front);
      PlaysGrow(front, last);
      PrefetchStep(lat_cnt, front, last);
      assert frames == front + [last];
    }
  }

  lemma PlaysGrow(front: seq<Samples>, last: Samples)
    ensures Plays(front + [last]) == Plays(front) + [Playback(last)]
    ensures Sounds(front + [last]) == Sounds(front) + [Some(last)]
  {
  }

  /** A capture and then a playback, for each frame. */
  function Rounds(frames: seq<Samples>): seq<Event> {
    if frames == [] then []
    else Rounds(frames[..|frames| - 1]) + [CaptureBegins, CaptureEnds, Event.Playback(frames[|frames| - 1])]
  }

  /** After n rounds: n frames used, the next lat_cnt waiting, one in the delay queue. */
  function Steady(lat_cnt: nat, frames: seq<Samples>, n: nat): State
    requires |frames| == lat_cnt + 1 + n
  {
    State(Sounds(frames[n..n + lat_cnt]), 0, false, true, [frames[n + lat_cnt]], Sounds(frames[..n]), frames)
  }

  lemma RunMore(s: State, events: seq<Event>, e: Event)
    ensures Run(s, events + [e]) == Step(Run(s, events), e)
  {
    hide Step;
    assert (events + [e])[..|events|] == events;
  }

  lemma RunThree(s: State, events: seq<Event>, e: Event, f: Event, g: Event)
    ensures Run(s, events + [e, f, g]) == Step(Step(Step(Run(s, events), e), f), g)
  {
    hide Step, Run;
    RunMore(s, events, e);
    RunMore(s, events + [e], f);
    RunMore(s, events + [e] + [f], g);
    assert events + [e, f, g] == events + [e] + [f] + [g];
  }

  lemma SteadyRound(lat_cnt: nat, frames: seq<Samples>, n: nat, last: Samples)
    requires lat_cnt > 0 && |frames| == lat_cnt + 1 + n
    ensures Step(Step(Step(Steady(lat_cnt, frames, n), CaptureBegins), CaptureEnds), Event.Playback(last))
            == Steady(lat_cnt, frames + [last], n + 1)
  {
    var all := frames + [last];
    assert all[n + 1..n + 1 + lat_cnt] == frames[n + 1..n + lat_cnt] + [frames[n + lat_cnt]];
    PlaysGrow(frames[n + 1..n + lat_cnt], frames[n + lat_cnt]);
    assert all[..n + 1] == frames[..n] + [frames[n]];
    PlaysGrow(frames[..n], frames[n]);
    var s := Steady(lat_cnt, frames, n);
    assert s.buf[0] == Some(frames[n]);
    assert s.buf[1..] == Sounds(frames[n + 1..n + lat_cnt]);
  }

  /** After lat_cnt + 1 frames played, any number of rounds of a capture and a playback use the frames played, one by
      one from the first, without silence. */
  lemma {:induction false} SteadyState(lat_cnt: nat, first: seq<Samples>, more: seq<Samples>)
    requires lat_cnt > 0 && |first| == lat_cnt + 1
    ensures Run(Initial(lat_cnt), Plays(first) + Rounds(more)) == Steady(lat_cnt, first + more, |more|)
  {
    hide Step, Sounds, Plays, Run, Steady;
    if more == [] {
      Prefetch(lat_cnt, first);
      assert Plays(first) + Rounds(more) == Plays(first) && first + more == first;
      PrefetchedIsSteady(lat_cnt, first);
    } else {
      var n := |more| - 1;
      var front, last := more[..n], more[n];
      SteadyState(lat_cnt, first, front);
      var before, round := Plays(first) + Rounds(front), [CaptureBegins, CaptureEnds, Event.Playback(last)];
      assert Plays(first) + Rounds(more) == before + round;
      RunThree(Initial(lat_cnt), before, CaptureBegins, CaptureEnds, Event.Playback(last));
      SteadyRound(lat_cnt, first + front, n, last);
      assert first + more == first + front + [last];
    }
  }

  lemma PrefetchedIsSteady(lat_cnt: nat, first: seq<Samples>)
    requires |first| == lat_cnt + 1
    ensures Prefetched(lat_cnt, first) == Steady(lat_cnt, first, 0)
  {
    assert first[0..0 + lat_cnt] == first[..lat_cnt];
    assert first[lat_cnt..] == [first[lat_cnt]];
    assert Sounds(first[..0]) == [];
  }

  /** Reference k of the rounds is frame k. */
  lemma SteadyReferences(lat_cnt: nat, first: seq<Samples>, more: seq<Samples>)
    requires lat_cnt > 0 && |first| == lat_cnt + 1
    ensures var s := Run(Initial(lat_cnt), Plays(first) + Rounds(more));
            |s.used| == |more| && forall k: nat | k < |more| :: s.used[k] == Some((first + more)[k])
  {
    hide Run, Rounds, Plays;
    SteadyState(lat_cnt, first, more);
  }

  class Frame {
    var buf: Samples
    /** The samples are inserted silence. */
    ghost var silent: bool

    constructor ()
      ensures !silent
    {
      buf := [];
      silent := false;
    }
  }

  /** Every frame is in exactly one place. */
  ghost predicate Placed(buf: seq<Frame>, free: seq<Frame>, hand: Frame?, frames: set<Frame>) {
    multiset(buf) + multiset(free) + (if hand == null then multiset{} else multiset{hand}) == multiset(frames)
  }

  lemma InOnePlace(buf: seq<Frame>, free: seq<Frame>, hand: Frame?, frames: set<Frame>, f: Frame)
    requires Placed(buf, free, hand, frames)
    ensures f in buf || f in free || f == hand ==> f in frames
    ensures f in free || f == hand ==> f !in buf
  {
    var all := multiset(buf) + multiset(free) + if hand == null then multiset{} else multiset{hand};
    assert all[f] == multiset(buf)[f] + multiset(free)[f] + if f == hand then 1 else 0;
    assert multiset(frames)[f] == if f in frames then 1 else 0;
  }

  lemma AllFrames(buf: seq<Frame>, free: seq<Frame>, hand: Frame?, frames: set<Frame>)
    requires Placed(buf, free, hand, frames)
    ensures forall f | f in buf :: f in frames
  {
    forall f | f in buf ensures f in frames {
      InOnePlace(buf, free, hand, frames, f);
    }
  }

  lemma FreeToBuf(buf: seq<Frame>, free: seq<Frame>, hand: Frame?, frames: set<Frame>)
    requires Placed(buf, free, hand, frames) && free != []
    ensures Placed(buf + [free[|free| - 1]], free[..|free| - 1], hand, frames)
  {
    assert free == free[..|free| - 1] + [free[|free| - 1]];
  }

  lemma BufToFree(buf: seq<Frame>, free: seq<Frame>, hand: Frame?, frames: set<Frame>)
    requires Placed(buf, free, hand, frames) && buf != []
    ensures Placed(buf[1..], free + [buf[0]], hand, frames)
  {
    assert buf == [buf[0]] + buf[1..];
  }

  lemma BufToHand(buf: seq<Frame>, free: seq<Frame>, frames: set<Frame>)
    requires Placed(buf, free, null, frames) && buf != []
    ensures Placed(buf[1..], free, buf[0], frames)
  {
    assert buf == [buf[0]] + buf[1..];
  }

  lemma HandToBuf(buf: seq<Frame>, free: seq<Frame>, hand: Frame, frames: set<Frame>)
    requires Placed(buf, free, hand, frames)
    ensures Placed(buf + [hand], free, null, frames)
  {
  }

  class EchoCanceller {
    const samples_per_frame: nat
    const lat_cnt: nat
    var lat_ready: bool
    var lat_buf: seq<Frame>
    var lat_free: seq<Frame>
    /** The frame capture works on between releasing and reacquiring the lock. */
    var oldest_frm: Frame?
    var delay_buf: seq<Samples>
    ghost const frames: set<Frame>
    ghost var used: seq<Option<Samples>>
    ghost var played: seq<Samples>

    ghost predicate Valid()
      reads this, frames
    {
      && lat_cnt > 0 && |frames| == lat_cnt && Placed(lat_buf, lat_free, oldest_frm, frames)
      && (forall f | f in lat_buf :: f in frames && (f.silent ==> f.buf == Repeat(samples_per_frame, 0)))
      && Invariant(Model(), lat_cnt)
    }

    ghost function Content(f: Frame): Option<Samples>
      reads f
    {
      if f.silent then None else Some(f.buf)
    }

    ghost function Contents(q: seq<Frame>): seq<Option<Samples>>
      reads q
    {
      seq(|q|, k requires 0 <= k < |q| reads q => Content(q[k]))
    }

    ghost function Model(): State
      reads this, lat_buf
    {
      State(Contents(lat_buf), |lat_free|, oldest_frm != null, lat_ready, delay_buf, used, played)
    }

    constructor (samples: nat, latency_ms: nat, ptime: nat)
      requires ptime > 0
      ensures Valid() && Model() == Initial(lat_cnt) && samples_per_frame == samples
      ensures lat_cnt == (if latency_ms < ptime then ptime else latency_ms) / ptime
    {
      var count := (if latency_ms < ptime then ptime else latency_ms) / ptime;
      AtLeastOne(if latency_ms < ptime then ptime else latency_ms, ptime);
      samples_per_frame, lat_cnt, lat_ready, lat_buf, oldest_frm := samples, count, false, [], null;
      delay_buf, used, played := [], [], [];
      var free: seq<Frame>, all: set<Frame> := [], {};
      while |free| < count
        invariant |free| <= count && |all| == |free| && multiset(free) == multiset(all)
        invariant forall f | f in all :: fresh(f) && f in free
      {
        var frm := new Frame();
        assert frm !in all;
        free, all := free + [frm], all + {frm};
      }
      lat_free, frames := free, all;
      new;
      assert Contents([]) == [];
    }

    /** playback. */
    method Playback(play_frm: Samples) returns (status: int)
      requires Valid()
      modifies this, frames
      ensures Valid()
      ensures if |play_frm| != samples_per_frame then status == -1 && Model() == old(Model())
              else status == 0 && Model() == Step(old(Model()), Event.Playback(play_frm))
    {
      hide Invariant, Placed, Sounding;
      if samples_per_frame != |play_frm| { return -1; }
      status := 0;
      ghost var s := Model();
      StepKeepsInvariant(s, Event.Playback(play_frm), lat_cnt);
      delay_buf := delay_buf + [play_frm];
      played := played + [play_frm];
      if !lat_ready {
        if lat_free == [] {
          lat_ready := true;
          assert Contents(lat_buf) == s.buf;
          return 0;
        }
        MoveOneFrame();
      }
    }

    /** Takes the last free frame, fills it from the delay queue and appends it to lat_buf. */
    method MoveOneFrame()
      requires Placed(lat_buf, lat_free, oldest_frm, frames) && lat_free != [] && delay_buf != []
      modifies this`lat_buf, this`lat_free, this`delay_buf, frames
      ensures Placed(lat_buf, lat_free, oldest_frm, frames) && |lat_free| == old(|lat_free|) - 1
      ensures delay_buf == old(delay_buf[1..])
      ensures Contents(lat_buf) == old(Contents(lat_buf)) + [Some(old(delay_buf[0]))]
      ensures forall f | f in lat_buf ::
                f in frames && (f.silent ==> f in old(lat_buf) && old(f.silent) && f.buf == old(f.buf))
    {
      hide Placed;
      ghost var before := Contents(lat_buf);
      var frm := lat_free[|lat_free| - 1];
      InOnePlace(lat_buf, lat_free, oldest_frm, frames, frm);
      AllFrames(lat_buf, lat_free, oldest_frm, frames);
      FreeToBuf(lat_buf, lat_free, oldest_frm, frames);
      lat_free := lat_free[..|lat_free| - 1];
      frm.buf := delay_buf[0];
      frm.silent := false;
      delay_buf := delay_buf[1..];
      assert Contents(lat_buf) == before;
      Appended(lat_buf, frm);
      lat_buf := lat_buf + [frm];
    }

    lemma Appended(q: seq<Frame>, f: Frame)
      ensures Contents(q + [f]) == Contents(q) + [Content(f)]
    {
    }

    /** capture up to the release of the lock. */
    method CaptureBegin(rec_frm: Samples) returns (status: int)
      requires Valid() && oldest_frm == null
      modifies this
      ensures Valid()
      ensures if |rec_frm| != samples_per_frame then status == -1 && Model() == old(Model())
              else status == 0 && Model() == Step(old(Model()), CaptureBegins)
      ensures status == 0 ==> (oldest_frm != null <==> lat_ready)
    {
      hide Invariant, Placed, Sounding;
      if samples_per_frame != |rec_frm| { return -1; }
      status := 0;
      if !lat_ready { return; }
      ghost var s := Model();
      StepKeepsInvariant(s, CaptureBegins, lat_cnt);
      ReadyMeansFull(s, lat_cnt);
      var frm := lat_buf[0];
      BufToHand(lat_buf, lat_free, frames);
      used := used + [Content(frm)];
      oldest_frm := frm;
      lat_buf := lat_buf[1..];
      assert Contents(lat_buf) == s.buf[1..];
    }

    /** capture from reacquiring the lock to the end. */
    method CaptureEnd()
      requires Valid() && oldest_frm != null
      modifies this, oldest_frm
      ensures Valid() && Model() == Step(old(Model()), CaptureEnds)
    {
      hide Invariant, Placed, Sounding;
      ghost var s := Model();
      StepKeepsInvariant(s, CaptureEnds, lat_cnt);
      var frm: Frame := oldest_frm;
      InOnePlace(lat_buf, lat_free, frm, frames, frm);
      HandToBuf(lat_buf, lat_free, frm, frames);
      if delay_buf != [] {
        frm.buf := delay_buf[0];
        frm.silent := false;
        delay_buf := delay_buf[1..];
      } else {
        frm.buf := Repeat(samples_per_frame, 0);
        frm.silent := true;
      }
      assert Contents(lat_buf) == s.buf;
      Appended(lat_buf, frm);
      lat_buf := lat_buf + [frm];
      oldest_frm := null;
    }

    /** reset. */
    method Reset()
      requires Valid()
      modifies this
      ensures Valid() && Model() == Step(old(Model()), ResetAll)
    {
      hide Invariant, Placed, Sounding;
      StepKeepsInvariant(Model(), ResetAll, lat_cnt);
      FreeAll();
      lat_ready := false;
      delay_buf := [];
      used, played := [], [];
      assert Contents([]) == [];
    }

    /** Moves every waiting frame, oldest first, to the end of lat_free. */
    method FreeAll()
      requires Placed(lat_buf, lat_free, oldest_frm, frames)
      modifies this`lat_buf, this`lat_free
      ensures Placed(lat_buf, lat_free, oldest_frm, frames)
      ensures lat_buf == [] && lat_free == old(lat_free) + old(lat_buf)
    {
      hide Placed;
      while lat_buf != []
        invariant Placed(lat_buf, lat_free, oldest_frm, frames)
        invariant lat_free + lat_buf == old(lat_free) + old(lat_buf)
        decreases |lat_buf|
      {
        BufToFree(lat_buf, lat_free, oldest_frm, frames);
        var frm := lat_buf[0];
        lat_buf := lat_buf[1..];
        lat_free := lat_free + [frm];
      }
    }
  }

  lemma AtLeastOne(a: nat, b: nat)
    requires 0 < b <= a
    ensures a / b > 0
  {
  }
}
