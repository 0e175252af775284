/** OnVideoFrame as a run of the atomic steps, and which requests have the frame in the end. */
module VideoFrames {
  import opened FrameRefs
  import opened RateGate
  import opened Wrappers

  predicate Wanted(r: Request, camera: nat, frameType: nat) {
    r.m_camera == camera && frameType % 16 == r.m_type
  }

  predicate IsMpeg(frameType: nat) {
    frameType == MPEG4_HD_TYPE || frameType == MPEG4_CIF_TYPE
  }

  predicate IsIFrame(frameType: nat) {
    frameType < 0x80
  }

  /** The request is offered a header frame first. */
  predicate NeedsHeader(r: Request, camera: nat, frameType: nat) {
    Wanted(r, camera, frameType) && IsMpeg(frameType) && r.m_first && IsIFrame(frameType)
  }

  /** A frame of its own, offered and dropped. */
  function HeaderEvents(r: Request, i: nat, header: FrameId, interval: nat): seq<Event> {
    if Offer(r, header, interval).1 then [Publish, Offered(i, header, interval), Cleared(i, true), Drop(header)]
    else [Publish, Offered(i, header, interval), Drop(header)]
  }

  function AfterHeader(r: Request, header: FrameId, interval: nat): (Request, bool) {
    var (o, added) := Offer(r, header, interval);
    (if added then ClearFlags(o, true) else o, added)
  }

  /** The I-frame test in front of an MPEG4 frame. */
  function GatedEvents(r: Request, i: nat, frame: FrameId, frameType: nat, interval: nat): seq<Event> {
    if !r.m_iframe then [Offered(i, frame, interval)]
    else if !IsIFrame(frameType) then []
    else if Offer(r, frame, interval).1 then [Offered(i, frame, interval), Cleared(i, false)]
    else [Offered(i, frame, interval)]
  }

  function AfterGated(r: Request, frame: FrameId, frameType: nat, interval: nat): Request {
    var (o, added) := Offer(r, frame, interval);
    if !r.m_iframe then o else if !IsIFrame(frameType) then r else if added then ClearFlags(o, false) else o
  }

  /** What OnVideoFrame does for request number i, a header frame being number header. */
  function RequestEvents(r: Request, i: nat, frame: FrameId, camera: nat, frameType: nat, interval: nat,
                           header: FrameId)
    : seq<Event>
  {
    if !Wanted(r, camera, frameType) then []
    else if !IsMpeg(frameType) then [Offered(i, frame, interval)]
    else if !NeedsHeader(r, camera, frameType) then GatedEvents(r, i, frame, frameType, interval)
    else
      var (r', added) := AfterHeader(r, header, interval);
      HeaderEvents(r, i, header, interval) + if added then GatedEvents(r', i, frame, frameType, interval) else []
  }

  function AfterRequest(r: Request, frame: FrameId, camera: nat, frameType: nat, interval: nat,
                          header: FrameId): Request {
    if !Wanted(r, camera, frameType) then r
    else if !IsMpeg(frameType) then Offer(r, frame, interval).0
    else if !NeedsHeader(r, camera, frameType) then AfterGated(r, frame, frameType, interval)
    else
      var (r', added) := AfterHeader(r, header, interval);
      if added then AfterGated(r', frame, frameType, interval) else r'
  }

  /** How many of the first n requests are offered a header frame. */
  function Headers(rs: seq<Request>, n: nat, camera: nat, frameType: nat): nat
    requires n <= |rs|
  {
    if n == 0 then 0
    else Headers(rs, n - 1, camera, frameType) + if NeedsHeader(rs[n - 1], camera, frameType) then 1 else 0
  }

  /** The frame is offered to the first n requests. */
  function OfferEvents(rs: seq<Request>, n: nat, frame: FrameId, camera: nat, frameType: nat, interval: nat): seq<Event>
    requires n <= |rs|
  {
    if n == 0 then []
    else OfferEvents(rs, n - 1, frame, camera, frameType, interval)
         + RequestEvents(rs[n - 1], n - 1, frame, camera, frameType, interval,
                         frame + 1 + Headers(rs, n - 1, camera, frameType))
  }

  /** OnVideoFrame: a new frame, offered to every request, and dropped. */
  function VideoEvents(s: State, camera: nat, frameType: nat, interval: nat): seq<Event> {
    [Publish] + OfferEvents(s.requests, |s.requests|, s.next, camera, frameType, interval) + [Drop(s.next)]
  }

  lemma RunMore(s: State, events: seq<Event>, e: Event)
    ensures Run(s, []) == s && Run(s, events + [e]) == Step(Run(s, events), e)
  {
    hide Step;
    assert (events + [e])[..|events|] == events;
  }

  lemma RunOne(s: State, e: Event)
    ensures Run(s, [e]) == Step(s, e) && Run(s, []) == s
  {
    hide Step, Run;
    RunMore(s, [], e);
    assert [] + [e] == [e];
  }

  lemma RunTwo(s: State, e: Event, f: Event)
    ensures Run(s, [e, f]) == Step(Step(s, e), f)
  {
    hide Step, Run;
    RunOne(s, e);
    RunMore(s, [e], f);
    assert [e] + [f] == [e, f];
  }

  lemma RunThree(s: State, e: Event, f: Event, g: Event)
    ensures Run(s, [e, f, g]) == Step(Step(Step(s, e), f), g)
  {
    hide Step, Run;
    RunTwo(s, e, f);
    RunMore(s, [e, f], g);
    assert [e, f] + [g] == [e, f, g];
  }

  lemma RunFour(s: State, e: Event, f: Event, g: Event, h: Event)
    ensures Run(s, [e, f, g, h]) == Step(Step(Step(Step(s, e), f), g), h)
  {
    hide Step, Run;
    RunThree(s, e, f, g);
    RunMore(s, [e, f, g], h);
    assert [e, f, g] + [h] == [e, f, g, h];
  }

  /** The parts of a state that decide what happens to requests. */
  ghost predicate Is(s: State, requests: seq<Request>, next: nat, held: multiset<FrameId>) {
    s.requests == requests && s.next == next && s.held == held
  }

  lemma OfferedStep(s: State, i: nat, frame: FrameId, interval: nat)
    requires i < |s.requests| && s.held[frame] > 0
    ensures Is(Step(s, Offered(i, frame, interval)),
               s.requests[i := Offer(s.requests[i], frame, interval).0], s.next, s.held)
  {
    hide Offer;
  }

  lemma ClearedStep(s: State, i: nat, first: bool)
    requires i < |s.requests|
    ensures Is(Step(s, Cleared(i, first)), s.requests[i := ClearFlags(s.requests[i], first)], s.next, s.held)
  {
  }

  lemma PublishStep(s: State)
    ensures Is(Step(s, Publish), s.requests, s.next + 1, s.held + multiset{s.next})
  {
  }

  lemma DropStep(s: State, frame: FrameId)
    requires s.held[frame] > 0
    ensures Is(Step(s, Drop(frame)), s.requests, s.next, s.held - multiset{frame})
  {
  }

  lemma GatedRun(s: State, i: nat, frame: FrameId, frameType: nat, interval: nat)
    requires i < |s.requests| && s.held[frame] > 0
    ensures var r := s.requests[i];
            Is(Run(s, GatedEvents(r, i, frame, frameType, interval)),
               s.requests[i := AfterGated(r, frame, frameType, interval)], s.next, s.held)
  {
    hide Step, Run, Offer;
    var r, e := s.requests[i], Offered(i, frame, interval);
    RunOne(s, e);
    RunTwo(s, e, Cleared(i, false));
    OfferedStep(s, i, frame, interval);
    ClearedStep(Step(s, e), i, false);
    assert s.requests[i := r] == s.requests;
  }

  lemma HeaderRun(s: State, i: nat, interval: nat)
    requires i < |s.requests|
    ensures Is(Run(s, HeaderEvents(s.requests[i], i, s.next, interval)),
               s.requests[i := AfterHeader(s.requests[i], s.next, interval).0], s.next + 1, s.held)
  {
    hide Step, Run, Offer;
    var h := s.next;
    var t1 := Step(s, Publish);
    var t2 := Step(t1, Offered(i, h, interval));
    var t3 := Step(t2, Cleared(i, true));
    PublishStep(s);
    OfferedStep(t1, i, h, interval);
    ClearedStep(t2, i, true);
    DropStep(t2, h);
    DropStep(t3, h);
    RunThree(s, Publish, Offered(i, h, interval), Drop(h));
    RunFour(s, Publish, Offered(i, h, interval), Cleared(i, true), Drop(h));
    assert s.held + multiset{h} - multiset{h} == s.held;
  }

  lemma RequestRun(s: State, i: nat, frame: FrameId, camera: nat, frameType: nat, interval: nat)
    requires i < |s.requests| && s.held[frame] > 0
    ensures var r := s.requests[i];
            Is(Run(s, RequestEvents(r, i, frame, camera, frameType, interval, s.next)),
               s.requests[i := AfterRequest(r, frame, camera, frameType, interval, s.next)],
               s.next + (if NeedsHeader(r, camera, frameType) then 1 else 0), s.held)
  {
    hide Step, Run, Offer, HeaderEvents, GatedEvents, AfterHeader, AfterGated, Wanted, IsMpeg, NeedsHeader;
    var r := s.requests[i];
    if !Wanted(r, camera, frameType) {
      NoRun(s, i);
      NoHeader(r, camera, frameType);
    } else if !IsMpeg(frameType) {
      RunOne(s, Offered(i, frame, interval));
      OfferedStep(s, i, frame, interval);
      NoHeader(r, camera, frameType);
    } else if !NeedsHeader(r, camera, frameType) {
      GatedRun(s, i, frame, frameType, interval);
    } else {
      HeaderRun(s, i, interval);
      var (r', added) := AfterHeader(r, s.next, interval);
      var events := HeaderEvents(r, i, s.next, interval);
      var t := Run(s, events);
      if added {
        RunConcat(s, events, GatedEvents(r', i, frame, frameType, interval));
        GatedRun(t, i, frame, frameType, interval);
      } else {
        assert events + [] == events;
      }
    }
  }

  lemma NoRun(s: State, i: nat)
    requires i < |s.requests|
    ensures Run(s, []) == s && s.requests[i := s.requests[i]] == s.requests
  {
  }

  lemma NoHeader(r: Request, camera: nat, frameType: nat)
    requires !Wanted(r, camera, frameType) || !IsMpeg(frameType)
    ensures !NeedsHeader(r, camera, frameType)
  {
  }

  /** Request j after OnVideoFrame has come to it. */
  function Served(rs: seq<Request>, j: nat, frame: FrameId, camera: nat, frameType: nat, interval: nat): Request
    requires j < |rs|
  {
    AfterRequest(rs[j], frame, camera, frameType, interval, frame + 1 + Headers(rs, j, camera, frameType))
  }

  /** After the first n requests: those are served, the others untouched. */
  ghost predicate ServedUpTo(t: State, s: State, n: nat, frame: FrameId, camera: nat, frameType: nat, interval: nat)
    requires n <= |s.requests|
  {
    && |t.requests| == |s.requests| && t.held == s.held
    && t.next == frame + 1 + Headers(s.requests, n, camera, frameType)
    && (forall j: nat | n <= j < |s.requests| :: t.requests[j] == s.requests[j])
    && (forall j: nat | j < n :: t.requests[j] == Served(s.requests, j, frame, camera, frameType, interval))
  }

  lemma {:induction false} OfferRun(s: State, n: nat, frame: FrameId, camera: nat, frameType: nat, interval: nat)
    requires n <= |s.requests| && s.held[frame] > 0 && s.next == frame + 1
    ensures ServedUpTo(Run(s, OfferEvents(s.requests, n, frame, camera, frameType, interval)),
                       s, n, frame, camera, frameType, interval)
  {
    hide Step, RequestEvents, AfterRequest, NeedsHeader, Run;
    if n == 0 {
      RunOne(s, Publish);
    } else {
      OfferRun(s, n - 1, frame, camera, frameType, interval);
      var rs := s.requests;
      var events := OfferEvents(rs, n - 1, frame, camera, frameType, interval);
      var t := Run(s, events);
      RequestRun(t, n - 1, frame, camera, frameType, interval);
      RunConcat(s, events, RequestEvents(rs[n - 1], n - 1, frame, camera, frameType, interval, t.next));
    }
  }

  /** A frame that the request asks for, by camera and the low four bits of the type. */
  predicate Asked(r: Request, camera: nat, frameType: nat) {
    r.m_camera == camera && frameType % 16 == r.m_type
  }

  /** A header frame has to go first: before the first I-frame, type 0 or 2, of a request. */
  predicate HeaderFirst(r: Request, frameType: nat) {
    r.m_first && (frameType == 0 || frameType == 2)
  }

  /** The header frame that goes first is queued. */
  predicate TakesHeader(r: Request, camera: nat, frameType: nat, interval: nat) {
    && Asked(r, camera, frameType) && HeaderFirst(r, frameType)
    && Pass(r.gate, r.m_interval, interval).1 && |r.m_frames| <= 6
  }

  /** The request takes the frame: it asks for it, the rate gate lets it pass and there is room, also for the header
      frame that may have to go first. */
  predicate Takes(r: Request, camera: nat, frameType: nat, interval: nat) {
    var (gate, pass) := Pass(r.gate, r.m_interval, interval);
    Asked(r, camera, frameType) && pass &&
    if HeaderFirst(r, frameType) then Pass(gate, r.m_interval, interval).1 && |r.m_frames| <= 5
    else |r.m_frames| <= 6
  }

  /** What OnVideoFrame leaves behind the queue of a request: nothing, the frame, a header frame, or a header frame and
      directly behind it the frame. A header frame taken is the last one. */
  ghost predicate Queued(r: Request, r': Request, frame: FrameId, camera: nat, frameType: nat, interval: nat,
                         header: FrameId)
  {
    var first := if TakesHeader(r, camera, frameType, interval) then [header] else [];
    var more := first + if Takes(r, camera, frameType, interval) then [frame] else [];
    && r'.m_frames == r.m_frames + more && r'.accepted == r.accepted + more
    && r'.sending == r.sending && r'.taken == r.taken
    && (r'.m_first <==> r.m_first && first == [])
  }

  ghost predicate Delivered(r: Request, r': Request, frame: FrameId, camera: nat, frameType: nat, interval: nat) {
    exists header :: header > frame && Queued(r, r', frame, camera, frameType, interval, header)
  }

  /** The frame is queued exactly when the request takes it: the I-frame test never holds a frame back, because no frame
      type that is put to it fails it. */
  lemma QueuedIffTaken(r: Request, frame: FrameId, camera: nat, frameType: nat, interval: nat, header: FrameId)
    ensures Queued(r, AfterRequest(r, frame, camera, frameType, interval, header), frame, camera, frameType, interval,
                   header)
    ensures frame !in r.m_frames && header != frame ==>
              (frame in AfterRequest(r, frame, camera, frameType, interval, header).m_frames <==>
               Takes(r, camera, frameType, interval))
  {
    hide Pass;
    OfferOutcome(r, frame, interval);
    OfferOutcome(r, header, interval);
    OfferOutcome(AfterHeader(r, header, interval).0, frame, interval);
  }

  lemma {:induction false} OwnedByOne(rs: seq<Request>, frame: FrameId)
    ensures AllOwned(rs)[frame] > 0 <==> exists i: nat :: i < |rs| && Owned(rs[i])[frame] > 0
  {
    hide Owned;
    if rs != [] {
      var front := rs[..|rs| - 1];
      OwnedByOne(front, frame);
      assert AllOwned(rs)[frame] == AllOwned(front)[frame] + Owned(rs[|rs| - 1])[frame];
      if AllOwned(front)[frame] > 0 {
        var i: nat :| i < |front| && Owned(front[i])[frame] > 0;
        assert Owned(rs[i])[frame] > 0;
      }
      if i: nat :| i < |rs| && Owned(rs[i])[frame] > 0 {
        assert i < |front| ==> Owned(front[i])[frame] > 0;
      }
    }
  }

  lemma NewFrameIsNowhere(s: State, i: nat)
    requires Invariant(s) && i < |s.requests|
    ensures Owned(s.requests[i])[s.next] == 0
  {
    hide Owned, AllOwned;
    OwnedByOne(s.requests, s.next);
    assert Refs(s)[s.next] == 0;
  }

  lemma VideoRun(s: State, camera: nat, frameType: nat, interval: nat)
    ensures var t := Run(s, VideoEvents(s, camera, frameType, interval));
            && |t.requests| == |s.requests| && t.held == s.held && t.next > s.next
            && forall j: nat | j < |s.requests| ::
                 t.requests[j] == Served(s.requests, j, s.next, camera, frameType, interval)
  {
    hide Step, Run, OfferEvents, Served, Headers;
    var f, n := s.next, |s.requests|;
    var offers := OfferEvents(s.requests, n, f, camera, frameType, interval);
    RunOne(s, Publish);
    PublishStep(s);
    var t := Step(s, Publish);
    OfferRun(t, n, f, camera, frameType, interval);
    RunConcat(s, [Publish], offers);
    RunMore(s, [Publish] + offers, Drop(f));
    DropStep(Run(t, offers), f);
    assert s.held + multiset{f} - multiset{f} == s.held;
  }

  lemma {:induction false} RunKeepsInvariant(s: State, events: seq<Event>)
    requires Invariant(s)
    ensures Invariant(Run(s, events))
  {
    hide Step, Invariant;
    if events != [] {
      RunKeepsInvariant(s, events[..|events| - 1]);
      StepKeepsInvariant(Run(s, events[..|events| - 1]), events[|events| - 1]);
    }
  }

  lemma OwnedFrame(r: Request, frame: FrameId)
    ensures Owned(r)[frame] > 0 <==> frame in r.m_frames || r.sending == Some(frame)
  {
  }

  lemma ServedQueues(s: State, i: nat, camera: nat, frameType: nat, interval: nat)
    requires Invariant(s) && i < |s.requests|
    ensures var r := Served(s.requests, i, s.next, camera, frameType, interval);
            && (s.next in r.m_frames <==> Takes(s.requests[i], camera, frameType, interval))
            && (Owned(r)[s.next] > 0 <==> s.next in r.m_frames)
            && Queued(s.requests[i], r, s.next, camera, frameType, interval,
                      s.next + 1 + Headers(s.requests, i, camera, frameType))
  {
    hide Invariant, AfterRequest, Takes, Owned, Queued, Headers;
    var r, f, h := s.requests[i], s.next, s.next + 1 + Headers(s.requests, i, camera, frameType);
    NewFrameIsNowhere(s, i);
    OwnedFrame(r, f);
    QueuedIffTaken(r, f, camera, frameType, interval, h);
    KeepsSending(r, Served(s.requests, i, f, camera, frameType, interval), f, camera, frameType, interval, h);
    OwnedFrame(Served(s.requests, i, f, camera, frameType, interval), f);
  }

  lemma KeepsSending(r: Request, r': Request, frame: FrameId, camera: nat, frameType: nat, interval: nat,
                     header: FrameId)
    requires Queued(r, r', frame, camera, frameType, interval, header)
    ensures r'.sending == r.sending
  {
  }

  ghost predicate AnyTakes(rs: seq<Request>, camera: nat, frameType: nat, interval: nat) {
    exists i: nat :: i < |rs| && Takes(rs[i], camera, frameType, interval)
  }

  /** A frame that only queues refer to, namely those of the requests that take it, is referred to iff one takes it. */
  lemma ReferredIffTaken(s: State, t: State, f: FrameId, camera: nat, frameType: nat, interval: nat)
    requires |t.requests| == |s.requests| && t.held[f] == 0
    requires forall i: nat | i < |s.requests| ::
               Owned(t.requests[i])[f] > 0 <==> Takes(s.requests[i], camera, frameType, interval)
    ensures Refs(t)[f] > 0 <==> AnyTakes(s.requests, camera, frameType, interval)
  {
    hide Takes, Owned, AllOwned;
    OwnedByOne(t.requests, f);
    assert Refs(t)[f] == AllOwned(t.requests)[f];
  }

  /** After OnVideoFrame exactly the requests that take the frame have it at the end of their queue, behind what was
      there and the header frame they needed; the publisher holds what it held before, and the frame is already deleted
      iff nobody took it. */
  lemma VideoFrameDelivered(s: State, camera: nat, frameType: nat, interval: nat)
    requires Invariant(s)
    ensures var t := Run(s, VideoEvents(s, camera, frameType, interval));
            && Invariant(t) && |t.requests| == |s.requests| && t.held == s.held
            && (forall i: nat | i < |s.requests| ::
                  s.next in t.requests[i].m_frames <==> Takes(s.requests[i], camera, frameType, interval))
            && (forall i: nat | i < |s.requests| ::
                  Delivered(s.requests[i], t.requests[i], s.next, camera, frameType, interval))
            && (s.next in t.deleted <==> !AnyTakes(s.requests, camera, frameType, interval))
  {
    hide Invariant, Takes, Served, Owned, VideoEvents, Run, Refs, AnyTakes, Queued;
    var f, t := s.next, Run(s, VideoEvents(s, camera, frameType, interval));
    VideoRun(s, camera, frameType, interval);
    RunKeepsInvariant(s, VideoEvents(s, camera, frameType, interval));
    NewFrameUnheld(s);
    forall i: nat | i < |s.requests|
      ensures f in t.requests[i].m_frames <==> Takes(s.requests[i], camera, frameType, interval)
      ensures Owned(t.requests[i])[f] > 0 <==> Takes(s.requests[i], camera, frameType, interval)
      ensures Delivered(s.requests[i], t.requests[i], f, camera, frameType, interval)
    {
      ServedQueues(s, i, camera, frameType, interval);
      assert s.next + 1 + Headers(s.requests, i, camera, frameType) > f;
    }
    DeletedIff(t, f);
    ReferredIffTaken(s, t, f, camera, frameType, interval);
  }

  lemma NewFrameUnheld(s: State)
    requires Invariant(s)
    ensures s.held[s.next] == 0
  {
    hide AllOwned;
    assert Refs(s)[s.next] == 0;
  }

  /** A request whose header frame has been queued needs none before any later frame, whatever happens meanwhile. */
  lemma OneHeader(s: State, events: seq<Event>, i: nat, camera: nat, frameType: nat, interval: nat)
    requires Invariant(s) && i < |s.requests| && TakesHeader(s.requests[i], camera, frameType, interval)
    ensures var t := Run(s, VideoEvents(s, camera, frameType, interval));
            && |t.requests| == |s.requests|
            && (PlaceAfter(t, events, i).Some? ==>
                  var u, k := Run(t, events), PlaceAfter(t, events, i).value;
                  k < |u.requests| && forall ft: nat :: !HeaderFirst(u.requests[k], ft))
  {
    hide Invariant, Run, VideoEvents, PlaceAfter, TakesHeader, Takes;
    VideoFrameDelivered(s, camera, frameType, interval);
    var t := Run(s, VideoEvents(s, camera, frameType, interval));
    assert Delivered(s.requests[i], t.requests[i], s.next, camera, frameType, interval);
    if PlaceAfter(t, events, i).Some? {
      RequestOnward(t, events, i);
    }
  }

  /** The steps for one request offer it a header frame iff it asks for the frame and a header has to go first. */
  lemma HeaderOfferedIff(r: Request, i: nat, frame: FrameId, camera: nat, frameType: nat, interval: nat,
                         header: FrameId)
    requires header != frame
    ensures Offered(i, header, interval) in RequestEvents(r, i, frame, camera, frameType, interval, header)
            <==> Asked(r, camera, frameType) && HeaderFirst(r, frameType)
  {
    hide Offer;
  }
}
