/** OnVideoFrame while sender threads take and finish frames, and other cameras make frames, between any two of its
    steps. */
module DisturbedFrames {
  import opened FrameRefs
  import opened VideoFrames
  import opened RateGate
  import opened Wrappers

  /** What other threads can do while OnVideoFrame holds the lock of the request list. */
  ghost predicate Foreign(events: seq<Event>) {
    forall e | e in events :: e.Take? || e.Done? || e.Publish?
  }

  /** A request whose sender thread has taken frames from the front of its queue, or finished one. */
  ghost predicate Drained(r: Request, r': Request) {
    && r' == r.(m_frames := r'.m_frames, sending := r'.sending, taken := r'.taken)
    && r.taken <= r'.taken && r'.taken + r'.m_frames == r.taken + r.m_frames
    && |r'.m_frames| <= |r.m_frames|
  }

  /** Other threads drain queues; they change nothing else that matters to OnVideoFrame. */
  ghost predicate Undermined(s: State, t: State) {
    && |t.requests| == |s.requests| && t.next >= s.next
    && (forall j | 0 <= j < |s.requests| :: Drained(s.requests[j], t.requests[j]))
    && (forall f: FrameId :: t.held[f] >= s.held[f])
  }

  lemma ForeignStep(s: State, e: Event)
    requires e.Take? || e.Done? || e.Publish?
    ensures Undermined(s, Step(s, e))
  {
    hide Release, TakeFirst;
    if e.Take? && e.request < |s.requests| && s.requests[e.request].m_frames != [] {
      TakeDrains(s.requests[e.request]);
    }
    if e.Done? && e.request < |s.requests| && s.requests[e.request].sending.Some? {
      var r := s.requests[e.request];
      ReleaseKeepsRest(s.(requests := s.requests[e.request := r.(sending := None)]), r.sending.value);
    }
  }

  lemma TakeDrains(r: Request)
    requires r.m_frames != []
    ensures Drained(r, TakeFirst(r))
  {
    assert r.m_frames == [r.m_frames[0]] + r.m_frames[1..];
  }

  lemma UnderminedTwice(s: State, t: State, u: State)
    requires Undermined(s, t) && Undermined(t, u)
    ensures Undermined(s, u)
  {
    forall j | 0 <= j < |s.requests| ensures Drained(s.requests[j], u.requests[j]) {
      assert Drained(s.requests[j], t.requests[j]) && Drained(t.requests[j], u.requests[j]);
    }
  }

  lemma {:induction false} ForeignRun(s: State, events: seq<Event>)
    requires Foreign(events)
    ensures Undermined(s, Run(s, events))
  {
    hide Step, Undermined;
    if events == [] {
      NothingUndermined(s);
    } else {
      var front := events[..|events| - 1];
      ForeignRun(s, front);
      ForeignStep(Run(s, front), events[|events| - 1]);
      UnderminedTwice(s, Run(s, front), Run(s, events));
    }
  }

  lemma NothingUndermined(s: State)
    ensures Undermined(s, s)
  {
  }

  // ---- One request ----

  /** The frame offered behind the I-frame test, with others at work before and after; and whether it was queued. */
  ghost function GatedAmid(s: State, i: nat, frame: FrameId, frameType: nat, interval: nat,
                           before: seq<Event>, after: seq<Event>): (State, bool)
    requires i < |s.requests| && Foreign(before)
  {
    ForeignRun(s, before);
    var t := Run(s, before);
    var r := t.requests[i];
    var queued := Offer(r, frame, interval).1;
    var u := Step(t, Offered(i, frame, interval));
    if !r.m_iframe then (u, queued)
    else if !IsIFrame(frameType) then (t, false)
    else if !queued then (u, false)
    else (Step(Run(u, after), Cleared(i, false)), true)
  }

  /** The header frame made, offered and dropped, with others at work in between. */
  ghost function HeaderAmid(s: State, i: nat, interval: nat, a: seq<Event>, b: seq<Event>, c: seq<Event>): (State, bool)
    requires i < |s.requests| && Foreign(a)
  {
    ForeignRun(Step(s, Publish), a);
    var t := Run(Step(s, Publish), a);
    var queued := Offer(t.requests[i], s.next, interval).1;
    var u := Run(Step(t, Offered(i, s.next, interval)), b);
    var v := if queued then Step(u, Cleared(i, true)) else u;
    (Step(Run(v, c), Drop(s.next)), queued)
  }

  /** A step of OnVideoFrame that touches request i at most: other requests stay, and so does what threads hold. */
  ghost predicate Touched(s: State, t: State, i: nat) {
    && |t.requests| == |s.requests| && t.next >= s.next
    && (forall j | 0 <= j < |s.requests| && j != i :: Drained(s.requests[j], t.requests[j]))
    && (forall f: FrameId :: t.held[f] >= s.held[f])
  }

  lemma UnderminedIsTouched(s: State, t: State, u: State, i: nat)
    requires (Touched(s, t, i) && (Touched(t, u, i) || Undermined(t, u))) || (Undermined(s, t) && Touched(t, u, i))
    ensures Touched(s, u, i)
  {
    forall j | 0 <= j < |s.requests| && j != i ensures Drained(s.requests[j], u.requests[j]) {
      assert Drained(s.requests[j], t.requests[j]) && Drained(t.requests[j], u.requests[j]);
    }
  }

  lemma OfferTouches(s: State, i: nat, frame: FrameId, interval: nat)
    requires i < |s.requests| && s.held[frame] > 0
    ensures var t := Step(s, Offered(i, frame, interval));
            Touched(s, t, i) && t.requests[i] == Offer(s.requests[i], frame, interval).0
  {
    hide Offer, Step;
    OfferedStep(s, i, frame, interval);
  }

  lemma ClearTouches(s: State, i: nat, first: bool)
    requires i < |s.requests|
    ensures var t := Step(s, Cleared(i, first)); Touched(s, t, i) && t.requests[i] == ClearFlags(s.requests[i], first)
  {
    hide Step;
    ClearedStep(s, i, first);
  }

  /** Behind the I-frame test the frame is queued iff the rate gate lets it pass and there is still room. */
  lemma GatedAmidQueues(s: State, i: nat, frame: FrameId, frameType: nat, interval: nat,
                        before: seq<Event>, after: seq<Event>)
    requires i < |s.requests| && Foreign(before) && Foreign(after) && IsIFrame(frameType) && s.held[frame] > 0
    ensures var (u, queued) := GatedAmid(s, i, frame, frameType, interval, before, after);
            && Touched(s, u, i)
            && u.requests[i].accepted == s.requests[i].accepted + (if queued then [frame] else [])
            && exists r :: Drained(s.requests[i], r) && queued == Offer(r, frame, interval).1
  {
    hide Offer, Step, Run, Drained, Touched;
    ForeignRun(s, before);
    var t := Run(s, before);
    DrainedOne(s, t, i);
    OfferTouches(t, i, frame, interval);
    OfferOutcome(t.requests[i], frame, interval);
    var u := Step(t, Offered(i, frame, interval));
    UnderminedIsTouched(s, t, u, i);
    ForeignRun(u, after);
    UnderminedIsTouched(s, u, Run(u, after), i);
    SameLength(s, u, i);
    DrainedOne(u, Run(u, after), i);
    ClearTouches(Run(u, after), i, false);
    UnderminedIsTouched(s, Run(u, after), Step(Run(u, after), Cleared(i, false)), i);
  }

  lemma DrainedOne(s: State, t: State, i: nat)
    requires Undermined(s, t) && i < |s.requests|
    ensures |t.requests| == |s.requests| && t.next >= s.next && Drained(s.requests[i], t.requests[i])
    ensures t.requests[i].accepted == s.requests[i].accepted
    ensures forall f: FrameId :: t.held[f] >= s.held[f]
  {
  }

  lemma SameLength(s: State, t: State, i: nat)
    requires Touched(s, t, i)
    ensures |t.requests| == |s.requests| && t.next >= s.next && forall f: FrameId :: t.held[f] >= s.held[f]
  {
  }

  /** What became of the request that was offered a header frame. */
  ghost predicate HeaderOutcome(r: Request, header: FrameId, interval: nat, r': Request, queued: bool) {
    && r'.accepted == r.accepted + (if queued then [header] else [])
    && exists q :: Drained(r, q) && queued == Offer(q, header, interval).1
                   && (queued ==> Drained(ClearFlags(Offer(q, header, interval).0, true), r'))
  }

  lemma ClearedDrained(o: Request, r: Request, r': Request)
    requires Drained(o, r) && Drained(ClearFlags(r, true), r')
    ensures Drained(ClearFlags(o, true), r')
  {
  }

  lemma PublishTouches(s: State, i: nat)
    ensures var t := Step(s, Publish);
            Undermined(s, t) && t.requests == s.requests && t.held == s.held + multiset{s.next}
  {
    ForeignStep(s, Publish);
    hide Undermined;
  }

  /** Dropping what publishing added. */
  lemma DropTouches(s: State, t: State, i: nat, h: FrameId)
    requires Touched(s, t, i) && t.held[h] > s.held[h]
    ensures Touched(s, Step(t, Drop(h)), i) && Step(t, Drop(h)).requests == t.requests
  {
    hide Step;
    DropStep(t, h);
  }

  lemma HeaderAmidServes(s: State, i: nat, interval: nat, a: seq<Event>, b: seq<Event>, c: seq<Event>)
    requires i < |s.requests| && Foreign(a) && Foreign(b) && Foreign(c)
    ensures var (u, queued) := HeaderAmid(s, i, interval, a, b, c);
            Touched(s, u, i) && HeaderOutcome(s.requests[i], s.next, interval, u.requests[i], queued)
  {
    hide Offer, Step, Run, Drained, Touched, Undermined;
    var h, p := s.next, Step(s, Publish);
    PublishTouches(s, i);
    ForeignRun(p, a);
    var t := Run(p, a);
    UnderminedTwice(s, p, t);
    DrainedOne(p, t, i);
    DrainedOne(s, t, i);
    OfferTouches(t, i, h, interval);
    OfferOutcome(t.requests[i], h, interval);
    var o := Step(t, Offered(i, h, interval));
    UnderminedIsTouched(s, t, o, i);
    SameLength(t, o, i);
    ForeignRun(o, b);
    var u := Run(o, b);
    UnderminedIsTouched(s, o, u, i);
    DrainedOne(o, u, i);
    var queued := Offer(t.requests[i], h, interval).1;
    var v := if queued then Step(u, Cleared(i, true)) else u;
    ClearTouches(u, i, true);
    SameLength(u, Step(u, Cleared(i, true)), i);
    UnderminedIsTouched(s, u, Step(u, Cleared(i, true)), i);
    SameLength(s, v, i);
    ForeignRun(v, c);
    var w := Run(v, c);
    UnderminedIsTouched(s, v, w, i);
    DrainedOne(v, w, i);
    DropTouches(s, w, i, h);
    if queued {
      ClearFlagsDrains(Offer(t.requests[i], h, interval).0, u.requests[i]);
      DrainedTwice(ClearFlags(Offer(t.requests[i], h, interval).0, true), v.requests[i], w.requests[i]);
    }
    assert Drained(s.requests[i], t.requests[i]);
  }

  lemma ClearFlagsDrains(o: Request, r: Request)
    requires Drained(o, r)
    ensures Drained(ClearFlags(o, true), ClearFlags(r, true))
  {
  }

  lemma DrainedTwice(o: Request, r: Request, r': Request)
    requires Drained(o, r) && Drained(r, r')
    ensures Drained(o, r')
  {
  }

  // ---- What a disturbed request takes ----

  /** A request that would take the frame if its queue were empty. */
  predicate WouldTake(r: Request, camera: nat, frameType: nat, interval: nat) {
    Takes(r.(m_frames := []), camera, frameType, interval)
  }

  /** Others can only make room: what is taken undisturbed is taken, and nothing is that an empty queue would not
      take. */
  ghost predicate Bounded(r: Request, camera: nat, frameType: nat, interval: nat, queued: bool) {
    (Takes(r, camera, frameType, interval) ==> queued) && (queued ==> WouldTake(r, camera, frameType, interval))
  }

  lemma DrainedBounds(r: Request, r': Request, camera: nat, frameType: nat, interval: nat, queued: bool)
    requires Drained(r, r') && Bounded(r', camera, frameType, interval, queued)
    ensures Bounded(r, camera, frameType, interval, queued)
  {
    hide Pass;
  }

  lemma PlainBounds(r: Request, q: Request, frame: FrameId, camera: nat, frameType: nat, interval: nat)
    requires Drained(r, q) && Wanted(r, camera, frameType) && !NeedsHeader(r, camera, frameType)
    ensures Bounded(r, camera, frameType, interval, Offer(q, frame, interval).1)
  {
    hide Pass;
  }

  lemma HeaderBounds(r: Request, header: FrameId, q: Request, q': Request, frame: FrameId, camera: nat, frameType: nat,
                     interval: nat, queued: bool)
    requires NeedsHeader(r, camera, frameType) && HeaderOutcome(r, header, interval, q, queued) && Drained(q, q')
    ensures Bounded(r, camera, frameType, interval, queued && Offer(q', frame, interval).1)
  {
    hide Pass;
  }

  /** OnVideoFrame's service of request i: the event lists are what others do before and between its steps. */
  ghost function ServeAmid(s: State, i: nat, frame: FrameId, camera: nat, frameType: nat, interval: nat,
                           amid: seq<seq<Event>>): (State, bool)
    requires i < |s.requests| && |amid| == 6 && forall a | a in amid :: Foreign(a)
  {
    ForeignRun(s, amid[0]);
    var t := Run(s, amid[0]);
    var r := t.requests[i];
    if !Wanted(r, camera, frameType) then (t, false)
    else if !IsMpeg(frameType) then (Step(t, Offered(i, frame, interval)), Offer(r, frame, interval).1)
    else if !NeedsHeader(r, camera, frameType) then GatedAmid(t, i, frame, frameType, interval, [], amid[5])
    else
      HeaderAmidServes(t, i, interval, amid[1], amid[2], amid[3]);
      var (u, added) := HeaderAmid(t, i, interval, amid[1], amid[2], amid[3]);
      if !added then (u, false) else GatedAmid(u, i, frame, frameType, interval, amid[4], amid[5])
  }

  /** The request has accepted the frame or not, and before it at most frames other than this one. */
  ghost predicate Accepted(r: Request, r': Request, frame: FrameId, queued: bool) {
    exists first: seq<FrameId> ::
      |first| <= 1 && frame !in first && r'.accepted == r.accepted + first + (if queued then [frame] else [])
  }

  lemma AcceptedPlainly(r: Request, r': Request, frame: FrameId, queued: bool)
    requires r'.accepted == r.accepted + (if queued then [frame] else [])
    ensures Accepted(r, r', frame, queued)
  {
    assert r.accepted + [] == r.accepted;
  }

  lemma AcceptedBehind(r: Request, q: Request, r': Request, header: FrameId, frame: FrameId, queued: bool)
    requires header != frame && q.accepted == r.accepted + [header]
    requires r'.accepted == q.accepted + (if queued then [frame] else [])
    ensures Accepted(r, r', frame, queued)
  {
    assert frame !in [header];
  }

  lemma ServedAmid(s: State, i: nat, frame: FrameId, camera: nat, frameType: nat, interval: nat, amid: seq<seq<Event>>)
    requires i < |s.requests| && |amid| == 6 && (forall a | a in amid :: Foreign(a)) && s.held[frame] > 0
    requires frame < s.next
    ensures var (u, queued) := ServeAmid(s, i, frame, camera, frameType, interval, amid);
            && Touched(s, u, i) && Bounded(s.requests[i], camera, frameType, interval, queued)
            && |u.requests| == |s.requests| && Accepted(s.requests[i], u.requests[i], frame, queued)
  {
    hide Offer, Step, Run, Drained, Touched, Undermined, GatedAmid, HeaderAmid, HeaderOutcome, Bounded, Accepted;
    ForeignRun(s, amid[0]);
    var t := Run(s, amid[0]);
    DrainedOne(s, t, i);
    var r := t.requests[i];
    NothingUndermined(t);
    DrainedOne(t, t, i);
    UnderminedTouches(s, t, i);
    var result := ServeAmid(s, i, frame, camera, frameType, interval, amid).0;
    if !Wanted(r, camera, frameType) {
      NotWanted(r, camera, frameType, interval);
      AcceptedPlainly(s.requests[i], r, frame, false);
    } else if !IsMpeg(frameType) {
      OfferTouches(t, i, frame, interval);
      UnderminedIsTouched(s, t, Step(t, Offered(i, frame, interval)), i);
      PlainBounds(r, r, frame, camera, frameType, interval);
      OfferOutcome(r, frame, interval);
      SameLength(s, result, i);
      AcceptedPlainly(s.requests[i], result.requests[i], frame, Offer(r, frame, interval).1);
    } else if !NeedsHeader(r, camera, frameType) {
      GatedAmidQueues(t, i, frame, frameType, interval, [], amid[5]);
      UnderminedIsTouched(s, t, GatedAmid(t, i, frame, frameType, interval, [], amid[5]).0, i);
      var q :| Drained(r, q)
               && GatedAmid(t, i, frame, frameType, interval, [], amid[5]).1 == Offer(q, frame, interval).1;
      PlainBounds(r, q, frame, camera, frameType, interval);
      SameLength(s, result, i);
      AcceptedPlainly(s.requests[i], result.requests[i], frame, Offer(q, frame, interval).1);
    } else {
      HeaderAmidServes(t, i, interval, amid[1], amid[2], amid[3]);
      var (u, added) := HeaderAmid(t, i, interval, amid[1], amid[2], amid[3]);
      UnderminedIsTouched(s, t, u, i);
      SameLength(t, u, i);
      GatedAmidQueues(u, i, frame, frameType, interval, amid[4], amid[5]);
      var (v, queued) := GatedAmid(u, i, frame, frameType, interval, amid[4], amid[5]);
      UnderminedIsTouched(s, u, v, i);
      var q :| Drained(u.requests[i], q) && queued == Offer(q, frame, interval).1;
      HeaderBounds(r, t.next, u.requests[i], q, frame, camera, frameType, interval, added);
      HeaderAccepted(r, t.next, interval, u.requests[i], added);
      SameLength(s, v, i);
      if added {
        AcceptedBehind(s.requests[i], u.requests[i], v.requests[i], t.next, frame, queued);
      } else {
        AcceptedPlainly(s.requests[i], u.requests[i], frame, false);
      }
    }
    DrainedBounds(s.requests[i], r, camera, frameType, interval,
                  ServeAmid(s, i, frame, camera, frameType, interval, amid).1);
  }

  lemma HeaderAccepted(r: Request, header: FrameId, interval: nat, r': Request, queued: bool)
    requires HeaderOutcome(r, header, interval, r', queued)
    ensures r'.accepted == r.accepted + (if queued then [header] else [])
  {
  }

  lemma NotWanted(r: Request, camera: nat, frameType: nat, interval: nat)
    requires !Wanted(r, camera, frameType)
    ensures Bounded(r, camera, frameType, interval, false)
  {
  }

  lemma UnderminedTouches(s: State, t: State, i: nat)
    requires Undermined(s, t)
    ensures Touched(s, t, i)
  {
  }

  // ---- All requests ----

  ghost predicate IsRun(s: State, t: State) {
    exists events: seq<Event> :: t == Run(s, events)
  }

  lemma RunThen(s: State, t: State, events: seq<Event>)
    requires IsRun(s, t)
    ensures IsRun(s, Run(t, events))
  {
    hide Run, Step;
    var before :| t == Run(s, before);
    RunConcat(s, before, events);
    assert Run(t, events) == Run(s, before + events);
  }

  lemma StepThen(s: State, t: State, e: Event)
    requires IsRun(s, t)
    ensures IsRun(s, Step(t, e))
  {
    hide Run, Step;
    RunOne(t, e);
    RunThen(s, t, [e]);
  }

  lemma GatedIsRun(s: State, t: State, i: nat, frame: FrameId, frameType: nat, interval: nat,
                   before: seq<Event>, after: seq<Event>)
    requires IsRun(s, t) && i < |t.requests| && Foreign(before)
    ensures IsRun(s, GatedAmid(t, i, frame, frameType, interval, before, after).0)
  {
    hide Run, Step, Offer, IsRun;
    ForeignRun(t, before);
    RunThen(s, t, before);
    var u := Step(Run(t, before), Offered(i, frame, interval));
    StepThen(s, Run(t, before), Offered(i, frame, interval));
    RunThen(s, u, after);
    StepThen(s, Run(u, after), Cleared(i, false));
  }

  lemma HeaderIsRun(s: State, t: State, i: nat, interval: nat, a: seq<Event>, b: seq<Event>, c: seq<Event>)
    requires IsRun(s, t) && i < |t.requests| && Foreign(a)
    ensures IsRun(s, HeaderAmid(t, i, interval, a, b, c).0)
  {
    hide Run, Step, Offer, IsRun;
    var h, p := t.next, Step(t, Publish);
    ForeignRun(p, a);
    StepThen(s, t, Publish);
    RunThen(s, p, a);
    StepThen(s, Run(p, a), Offered(i, h, interval));
    var u := Run(Step(Run(p, a), Offered(i, h, interval)), b);
    RunThen(s, Step(Run(p, a), Offered(i, h, interval)), b);
    StepThen(s, u, Cleared(i, true));
    RunThen(s, u, c);
    RunThen(s, Step(u, Cleared(i, true)), c);
    StepThen(s, Run(u, c), Drop(h));
    StepThen(s, Run(Step(u, Cleared(i, true)), c), Drop(h));
  }

  lemma ServeIsRun(s: State, t: State, i: nat, frame: FrameId, camera: nat, frameType: nat, interval: nat,
                   amid: seq<seq<Event>>)
    requires IsRun(s, t) && i < |t.requests| && |amid| == 6 && forall a | a in amid :: Foreign(a)
    ensures IsRun(s, ServeAmid(t, i, frame, camera, frameType, interval, amid).0)
  {
    hide Run, Step, Offer, IsRun, GatedAmid, HeaderAmid;
    ForeignRun(t, amid[0]);
    RunThen(s, t, amid[0]);
    var u := Run(t, amid[0]);
    StepThen(s, u, Offered(i, frame, interval));
    GatedIsRun(s, u, i, frame, frameType, interval, [], amid[5]);
    HeaderIsRun(s, u, i, interval, amid[1], amid[2], amid[3]);
    HeaderAmidServes(u, i, interval, amid[1], amid[2], amid[3]);
    GatedIsRun(s, HeaderAmid(u, i, interval, amid[1], amid[2], amid[3]).0, i, frame, frameType, interval,
               amid[4], amid[5]);
  }

  /** What others do around the service of each of n requests: six lists of their steps for each. */
  ghost predicate Around(amid: seq<seq<seq<Event>>>, n: nat) {
    |amid| == n && forall k | 0 <= k < n :: |amid[k]| == 6 && forall a | a in amid[k] :: Foreign(a)
  }

  /** The first n requests served, and which of them queued the frame. */
  ghost function ServeAllAmid(s: State, n: nat, frame: FrameId, camera: nat, frameType: nat, interval: nat,
                              amid: seq<seq<seq<Event>>>): (r: (State, seq<bool>))
    requires n <= |s.requests| && Around(amid, |s.requests|) && s.held[frame] > 0 && frame < s.next
    ensures |r.0.requests| == |s.requests| && r.0.held[frame] > 0 && |r.1| == n && frame < r.0.next
  {
    if n == 0 then (s, [])
    else
      var (t, queued) := ServeAllAmid(s, n - 1, frame, camera, frameType, interval, amid);
      ServedAmid(t, n - 1, frame, camera, frameType, interval, amid[n - 1]);
      var (u, q) := ServeAmid(t, n - 1, frame, camera, frameType, interval, amid[n - 1]);
      (u, queued + [q])
  }

  lemma {:induction false} AllServedAmid(s: State, n: nat, frame: FrameId, camera: nat, frameType: nat, interval: nat,
                                         amid: seq<seq<seq<Event>>>)
    requires n <= |s.requests| && Around(amid, |s.requests|) && s.held[frame] > 0 && frame < s.next
    ensures var (t, queued) := ServeAllAmid(s, n, frame, camera, frameType, interval, amid);
            && IsRun(s, t)
            && (forall j | n <= j < |s.requests| :: Drained(s.requests[j], t.requests[j]))
            && (forall f: FrameId :: t.held[f] >= s.held[f])
            && (forall j | 0 <= j < n :: Accepted(s.requests[j], t.requests[j], frame, queued[j]))
            && forall j | 0 <= j < n :: Bounded(s.requests[j], camera, frameType, interval, queued[j])
  {
    hide Bounded, ServeAmid, Drained, Run, Step, Accepted;
    if n == 0 {
      RunOne(s, Publish);
      assert s == Run(s, []);
      forall j | 0 <= j < |s.requests| ensures Drained(s.requests[j], s.requests[j]) { Undrained(s.requests[j]); }
    } else {
      AllServedAmid(s, n - 1, frame, camera, frameType, interval, amid);
      var (t, queued) := ServeAllAmid(s, n - 1, frame, camera, frameType, interval, amid);
      var i := n - 1;
      ServedAmid(t, i, frame, camera, frameType, interval, amid[i]);
      ServeIsRun(s, t, i, frame, camera, frameType, interval, amid[i]);
      var (u, q) := ServeAmid(t, i, frame, camera, frameType, interval, amid[i]);
      DrainedBounds(s.requests[i], t.requests[i], camera, frameType, interval, q);
      forall j | n <= j < |s.requests| ensures Drained(s.requests[j], u.requests[j]) {
        DrainedTwice(s.requests[j], t.requests[j], u.requests[j]);
      }
      SameAccepted(s.requests[i], t.requests[i]);
      AcceptedSame(s.requests[i], t.requests[i], u.requests[i], u.requests[i], frame, q);
      forall j | 0 <= j < i ensures Accepted(s.requests[j], u.requests[j], frame, queued[j]) {
        SameAccepted(t.requests[j], u.requests[j]);
        AcceptedSame(s.requests[j], s.requests[j], t.requests[j], u.requests[j], frame, queued[j]);
      }
    }
  }

  lemma SameAccepted(r: Request, r': Request)
    requires Drained(r, r')
    ensures r'.accepted == r.accepted
  {
  }

  lemma AcceptedSame(r: Request, q: Request, q': Request, r': Request, frame: FrameId, queued: bool)
    requires Accepted(q, q', frame, queued) && q.accepted == r.accepted && r'.accepted == q'.accepted
    ensures Accepted(r, r', frame, queued)
  {
  }

  lemma Undrained(r: Request)
    ensures Drained(r, r)
  {
  }

  /** OnVideoFrame with sender threads, and other cameras making frames, at work between any two of its steps: every
      request that would take the frame undisturbed accepts it, behind a header frame at most; no request does that
      would not with an empty queue; counts and orders hold, and the frame is gone at the end iff nobody refers to
      it. */
  lemma VideoFrameAmid(s: State, camera: nat, frameType: nat, interval: nat, amid: seq<seq<seq<Event>>>)
    requires Invariant(s) && Around(amid, |s.requests|)
    ensures Step(s, Publish).requests == s.requests && Step(s, Publish).held[s.next] > 0
    ensures var f := s.next;
            var (t, queued) := ServeAllAmid(Step(s, Publish), |s.requests|, f, camera, frameType, interval, amid);
            var u := Step(t, Drop(f));
            && Invariant(u) && (Ordered(s) ==> Ordered(u)) && |u.requests| == |s.requests|
            && (forall j | 0 <= j < |s.requests| ::
                  && Bounded(s.requests[j], camera, frameType, interval, queued[j])
                  && Accepted(s.requests[j], u.requests[j], f, queued[j]))
            && (f in u.deleted <==> Refs(u)[f] == 0)
  {
    hide Bounded, ServeAllAmid, Drained, Run, Invariant, Accepted, Ordered;
    PublishTouches(s, 0);
    var p, f, n := Step(s, Publish), s.next, |s.requests|;
    assert p.next == f + 1;
    hide Step;
    AllServedAmid(p, n, f, camera, frameType, interval, amid);
    var t := ServeAllAmid(p, n, f, camera, frameType, interval, amid).0;
    StepKeepsInvariant(s, Publish);
    var events :| t == Run(p, events);
    RunKeepsInvariant(p, events);
    RunKeepsNext(p, events);
    if Ordered(s) {
      StepKeepsOrder(s, Publish);
      RunKeepsOrder(p, events);
      StepKeepsOrder(t, Drop(f));
    }
    DropStep(t, f);
    StepKeepsInvariant(t, Drop(f));
    NextFrame(t, Drop(f));
    DeletedIff(Step(t, Drop(f)), f);
  }

  lemma {:induction false} RunKeepsNext(s: State, events: seq<Event>)
    requires Invariant(s)
    ensures s.next <= Run(s, events).next
  {
    hide Step, Invariant;
    if events != [] {
      var front := events[..|events| - 1];
      RunKeepsNext(s, front);
      RunKeepsInvariant(s, front);
      NextFrame(Run(s, front), events[|events| - 1]);
    }
  }
}
