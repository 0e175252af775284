/** Reference counts of published frames, over every interleaving of the lock-protected steps of the publishers, the
    sender threads and the request list. */
module FrameRefs {
  import opened RateGate
  import opened Wrappers

  type FrameId = nat

  const MPEG4_HD_TYPE := 0
  const MPEG4_CIF_TYPE := 2

  /** A RequestHolder together with the frame its sender thread is working on, and on record the frames it has accepted
      and those its sender has taken, in order. */
  datatype Request = Request(
    m_type: nat,
    m_camera: nat,
    m_interval: nat,
    gate: Gate,
    m_frames: seq<FrameId>,
    sending: Option<FrameId>,
    m_first: bool,
    m_iframe: bool,
    accepted: seq<FrameId>,
    taken: seq<FrameId>)

  /** What AddFrame does to a request, and whether it reports success. */
  function Offer(r: Request, frame: FrameId, interval: nat): (Request, bool)
  {
    var (gate, pass) := Pass(r.gate, r.m_interval, interval);
    var r1 := r.(gate := gate);
    if !pass then (r1, false)
    else if |r.m_frames| <= 6 then (r1.(m_frames := r.m_frames + [frame], accepted := r.accepted + [frame]), true)
    else (r1.(m_iframe := true), false)
  }

  /** The references a request owns: its queue and the frame being sent. */
  ghost function Owned(r: Request): multiset<FrameId>
  {
    multiset(r.m_frames) + if r.sending.Some? then multiset{r.sending.value} else multiset{}
  }

  ghost function AllOwned(rs: seq<Request>): multiset<FrameId>
  {
    if rs == [] then multiset{} else AllOwned(rs[..|rs| - 1]) + Owned(rs[|rs| - 1])
  }

  lemma ExchangePart(a: multiset<FrameId>, b: multiset<FrameId>, c: multiset<FrameId>, d: multiset<FrameId>,
                     part: multiset<FrameId>)
    requires a + b == c + d
    ensures a + part + b == c + part + d
  {
    forall f: FrameId ensures (a + part + b)[f] == (c + part + d)[f] {
      assert (a + b)[f] == (c + d)[f];
    }
  }

  lemma {:induction false} OwnedAfterUpdate(rs: seq<Request>, i: nat, r: Request)
    requires i < |rs|
    ensures AllOwned(rs[i := r]) + Owned(rs[i]) == AllOwned(rs) + Owned(r)
  {
    hide Owned;
    var last := |rs| - 1;
    if i == last {
      assert rs[i := r][..last] == rs[..last];
    } else {
      assert rs[i := r][..last] == rs[..last][i := r];
      OwnedAfterUpdate(rs[..last], i, r);
      ExchangePart(AllOwned(rs[..last][i := r]), Owned(rs[i]), AllOwned(rs[..last]), Owned(r), Owned(rs[last]));
    }
  }

  lemma {:induction false} OwnedAfterRemove(rs: seq<Request>, i: nat)
    requires i < |rs|
    ensures AllOwned(rs[..i] + rs[i + 1..]) + Owned(rs[i]) == AllOwned(rs)
  {
    hide Owned;
    var last := |rs| - 1;
    if i == last {
      assert rs[..i] + rs[i + 1..] == rs[..last];
    } else {
      var out := rs[..i] + rs[i + 1..];
      assert out[..|out| - 1] == rs[..last][..i] + rs[..last][i + 1..];
      OwnedAfterRemove(rs[..last], i);
      ExchangePart(AllOwned(out[..|out| - 1]), Owned(rs[i]), AllOwned(rs[..last]), multiset{}, Owned(rs[last]));
    }
  }

  lemma OwnedAfterAppend(rs: seq<Request>, r: Request)
    ensures AllOwned(rs + [r]) == AllOwned(rs) + Owned(r)
  {
    assert (rs + [r])[..|rs|] == rs;
  }

  /** Counters agree with references: a live frame has exactly as many as there are, and at least one; a frame
      without any has been deleted, once. */
  ghost predicate Conserved(m_counter: map<FrameId, int>, refs: multiset<FrameId>, deleted: seq<FrameId>, next: nat)
  {
    && (forall f: FrameId :: f in m_counter <==> refs[f] > 0)
    && (forall f | f in m_counter :: m_counter[f] == refs[f])
    && (forall f: FrameId | f in deleted :: f < next && f !in m_counter)
    && (forall i, j | 0 <= i < j < |deleted| :: deleted[i] != deleted[j])
    && (forall f: FrameId | f in m_counter :: f < next)
    && (forall f: FrameId | f < next :: f in m_counter || f in deleted)
  }

  ghost predicate QueuesBounded(rs: seq<Request>)
  {
    forall i | 0 <= i < |rs| :: |rs[i].m_frames| <= 7
  }

  /** The server: requests, the counter of every live frame, how many frames were ever made, the frames deleted so
      far in order, and the references that threads hold which publish a frame or take a request apart. */
  datatype State = State(requests: seq<Request>, m_counter: map<FrameId, int>, next: nat, deleted: seq<FrameId>,
                         held: multiset<FrameId>)

  const INITIAL := State([], map[], 0, [], multiset{})

  /** The steps that the locks make atomic. */
  datatype Event =
    | Publish
    | Offered(request: nat, frame: FrameId, interval: nat)
    | Cleared(request: nat, first: bool)
    | Drop(frame: FrameId)
    | Take(request: nat)
    | Done(request: nat)
    | Connect(m_type: nat, m_camera: nat, interval: nat)
    | Disconnect(request: nat)

  function Count(s: State, frame: FrameId): int {
    if frame in s.m_counter then s.m_counter[frame] else 0
  }

  function AddReference(s: State, frame: FrameId): State {
    s.(m_counter := s.m_counter[frame := Count(s, frame) + 1])
  }

  function Release(s: State, frame: FrameId): State {
    var left := Count(s, frame) - 1;
    if left > 0 then s.(m_counter := s.m_counter[frame := left])
    else s.(m_counter := s.m_counter - {frame}, deleted := s.deleted + [frame])
  }

  /** clearIFrame, and clearFirst where asked for. */
  function ClearFlags(r: Request, first: bool): Request {
    r.(m_iframe := false, m_first := r.m_first && !first)
  }

  /** GetFrameAndRemove: the front of the queue goes to the sender. */
  function TakeFirst(r: Request): Request
    requires r.m_frames != []
  {
    var frame := r.m_frames[0];
    r.(m_frames := r.m_frames[1..], sending := Some(frame), taken := r.taken + [frame])
  }

  /** The RequestHolder constructor. */
  function NewRequest(m_type: nat, m_camera: nat, interval: nat): Request {
    Request(m_type, m_camera, if interval >= 1 then interval - 1 else interval, Gate(0, 0), [], None, true, true,
            [], [])
  }

  /** One step; a step that its thread cannot take changes nothing. */
  function Step(s: State, e: Event): State {
    match e
    case Publish =>
      s.(m_counter := s.m_counter[s.next := 1], next := s.next + 1, held := s.held + multiset{s.next})
    case Offered(i, frame, interval) =>
      if i < |s.requests| && s.held[frame] > 0 then
        var (r, queued) := Offer(s.requests[i], frame, interval);
        var t := s.(requests := s.requests[i := r]);
        if queued then AddReference(t, frame) else t
      else s
    case Cleared(i, first) =>
      if i < |s.requests| then s.(requests := s.requests[i := ClearFlags(s.requests[i], first)]) else s
    case Drop(frame) =>
      if s.held[frame] > 0 then Release(s.(held := s.held - multiset{frame}), frame) else s
    case Take(i) =>
      if i < |s.requests| && s.requests[i].sending.None? && s.requests[i].m_frames != [] then
        var r := s.requests[i];
        s.(requests := s.requests[i := TakeFirst(r)])
      else s
    case Done(i) =>
      if i < |s.requests| && s.requests[i].sending.Some? then
        var r := s.requests[i];
        Release(s.(requests := s.requests[i := r.(sending := None)]), r.sending.value)
      else s
    case Connect(m_type, m_camera, interval) =>
      s.(requests := s.requests + [NewRequest(m_type, m_camera, interval)])
    case Disconnect(i) =>
      if i < |s.requests| && s.requests[i].sending.None? then
        s.(requests := s.requests[..i] + s.requests[i + 1..], held := s.held + multiset(s.requests[i].m_frames))
      else s
  }

  function Run(s: State, events: seq<Event>): State {
    if events == [] then s else Step(Run(s, events[..|events| - 1]), events[|events| - 1])
  }

  /** All references to frames. */
  ghost function Refs(s: State): multiset<FrameId> {
    AllOwned(s.requests) + s.held
  }

  ghost predicate Counted(s: State, refs: multiset<FrameId>) {
    Conserved(s.m_counter, refs, s.deleted, s.next)
  }

  ghost predicate Invariant(s: State) {
    Counted(s, Refs(s)) && QueuesBounded(s.requests)
  }

  // ---- Single steps keep the counts ----

  lemma ReleaseCounted(s: State, refs: multiset<FrameId>, frame: FrameId)
    requires Counted(s, refs + multiset{frame})
    ensures frame in s.m_counter && Counted(Release(s, frame), refs) && s.deleted <= Release(s, frame).deleted
  {
    assert (refs + multiset{frame})[frame] == refs[frame] + 1;
  }

  lemma AddReferenceCounted(s: State, refs: multiset<FrameId>, frame: FrameId)
    requires Counted(s, refs) && refs[frame] > 0
    ensures frame in s.m_counter && Counted(AddReference(s, frame), refs + multiset{frame})
  {
  }

  lemma PublishCounted(s: State, refs: multiset<FrameId>)
    requires Counted(s, refs)
    ensures Counted(s.(m_counter := s.m_counter[s.next := 1], next := s.next + 1), refs + multiset{s.next})
  {
  }

  lemma Balance(all: multiset<FrameId>, all': multiset<FrameId>, own: multiset<FrameId>, own': multiset<FrameId>,
                held: multiset<FrameId>, frame: FrameId)
    requires all' + own == all + own'
    ensures own' == own ==> all' + held == all + held
    ensures own' == own + multiset{frame} ==> all' + held == all + held + multiset{frame}
    ensures own == own' + multiset{frame} ==> all + held == all' + held + multiset{frame}
  {
    forall f: FrameId ensures all'[f] + own[f] == all[f] + own'[f] {
      assert (all' + own)[f] == (all + own')[f];
    }
  }

  /** Exchanging one request for another that owns the same, one reference more, or one less. */
  lemma Exchanged(s: State, i: nat, r: Request, frame: FrameId)
    requires i < |s.requests|
    ensures var t, own := s.(requests := s.requests[i := r]), Owned(s.requests[i]);
            && (Owned(r) == own ==> Refs(t) == Refs(s))
            && (Owned(r) == own + multiset{frame} ==> Refs(t) == Refs(s) + multiset{frame})
            && (own == Owned(r) + multiset{frame} ==> Refs(s) == Refs(t) + multiset{frame})
    ensures QueuesBounded(s.requests) && |r.m_frames| <= 7 ==> QueuesBounded(s.requests[i := r])
  {
    hide AllOwned, Owned;
    OwnedAfterUpdate(s.requests, i, r);
    Balance(AllOwned(s.requests), AllOwned(s.requests[i := r]), Owned(s.requests[i]), Owned(r), s.held, frame);
  }

  lemma OfferOwns(r: Request, frame: FrameId, interval: nat)
    ensures var (o, queued) := Offer(r, frame, interval);
            && Owned(o) == Owned(r) + (if queued then multiset{frame} else multiset{})
            && (|r.m_frames| <= 7 ==> |o.m_frames| <= 7)
  {
    hide Pass;
  }

  lemma OfferedKeepsInvariant(s: State, i: nat, frame: FrameId, interval: nat)
    requires Invariant(s)
    ensures Invariant(Step(s, Offered(i, frame, interval)))
  {
    hide Conserved, Offer, Owned, AllOwned;
    if i < |s.requests| && s.held[frame] > 0 {
      var (r, queued) := Offer(s.requests[i], frame, interval);
      OfferOwns(s.requests[i], frame, interval);
      assert |s.requests[i].m_frames| <= 7;
      Exchanged(s, i, r, frame);
      hide QueuesBounded;
      assert Refs(s)[frame] > 0;
      var t := s.(requests := s.requests[i := r]);
      if queued {
        AddReferenceCounted(s, Refs(s), frame);
        assert Counted(AddReference(t, frame), Refs(t));
      } else {
        assert Refs(t) == Refs(s);
      }
    }
  }

  lemma HeadMoves(r: Request)
    requires r.m_frames != [] && r.sending.None?
    ensures Owned(TakeFirst(r)) == Owned(r)
  {
    assert r.m_frames == [r.m_frames[0]] + r.m_frames[1..];
  }

  lemma TakeKeepsInvariant(s: State, i: nat)
    requires Invariant(s)
    ensures Invariant(Step(s, Take(i)))
  {
    hide Conserved, Owned, AllOwned;
    if i < |s.requests| && s.requests[i].sending.None? && s.requests[i].m_frames != [] {
      var r := s.requests[i];
      HeadMoves(r);
      assert |r.m_frames| <= 7;
      Exchanged(s, i, TakeFirst(r), 0);
    }
  }

  lemma SentIsOwned(r: Request)
    requires r.sending.Some?
    ensures Owned(r) == Owned(r.(sending := None)) + multiset{r.sending.value}
  {
  }

  lemma ReleaseKeepsRest(s: State, frame: FrameId)
    ensures var t := Release(s, frame); t == s.(m_counter := t.m_counter, deleted := t.deleted)
  {
  }

  lemma DoneKeepsInvariant(s: State, i: nat)
    requires Invariant(s)
    ensures Invariant(Step(s, Done(i))) && s.deleted <= Step(s, Done(i)).deleted
  {
    hide Conserved, Owned, AllOwned, Release;
    if i < |s.requests| && s.requests[i].sending.Some? {
      var r := s.requests[i];
      var t := s.(requests := s.requests[i := r.(sending := None)]);
      SentIsOwned(r);
      assert |r.m_frames| <= 7;
      Exchanged(s, i, r.(sending := None), r.sending.value);
      ReleaseCounted(t, Refs(t), r.sending.value);
      ReleaseKeepsRest(t, r.sending.value);
    }
  }

  lemma DropKeepsInvariant(s: State, frame: FrameId)
    requires Invariant(s)
    ensures Invariant(Step(s, Drop(frame))) && s.deleted <= Step(s, Drop(frame)).deleted
  {
    hide Conserved, AllOwned, Release;
    if s.held[frame] > 0 {
      var t := s.(held := s.held - multiset{frame});
      assert Refs(s) == Refs(t) + multiset{frame};
      ReleaseCounted(t, Refs(t), frame);
      ReleaseKeepsRest(t, frame);
    }
  }

  /** A request that is not sending owns its queue, which passes to the thread that takes the request apart. */
  lemma DisconnectKeepsInvariant(s: State, i: nat)
    requires Invariant(s)
    ensures Invariant(Step(s, Disconnect(i)))
  {
    hide Conserved, AllOwned;
    if i < |s.requests| && s.requests[i].sending.None? {
      var t := Step(s, Disconnect(i));
      OwnedAfterRemove(s.requests, i);
      assert Owned(s.requests[i]) == multiset(s.requests[i].m_frames);
      hide Owned;
      assert Refs(t) == Refs(s);
    }
  }

  lemma PublishKeepsInvariant(s: State)
    requires Invariant(s)
    ensures Invariant(Step(s, Publish))
  {
    hide Conserved, AllOwned;
    PublishCounted(s, Refs(s));
    assert Refs(s) + multiset{s.next} == Refs(Step(s, Publish));
  }

  lemma ClearedKeepsInvariant(s: State, i: nat, first: bool)
    requires Invariant(s)
    ensures Invariant(Step(s, Cleared(i, first)))
  {
    hide Conserved, AllOwned;
    if i < |s.requests| { Exchanged(s, i, ClearFlags(s.requests[i], first), 0); }
  }

  lemma ConnectKeepsInvariant(s: State, m_type: nat, m_camera: nat, interval: nat)
    requires Invariant(s)
    ensures Invariant(Step(s, Connect(m_type, m_camera, interval)))
  {
    hide Conserved, AllOwned;
    OwnedAfterAppend(s.requests, NewRequest(m_type, m_camera, interval));
    assert Refs(Step(s, Connect(m_type, m_camera, interval))) == Refs(s);
  }

  lemma StepKeepsInvariant(s: State, e: Event)
    requires Invariant(s)
    ensures Invariant(Step(s, e)) && s.deleted <= Step(s, e).deleted
  {
    hide Invariant, Offer, Release, TakeFirst, ClearFlags, NewRequest;
    match e
    case Publish => PublishKeepsInvariant(s);
    case Offered(i, frame, interval) =>
      OfferedKeepsInvariant(s, i, frame, interval);
    case Cleared(i, first) => ClearedKeepsInvariant(s, i, first);
    case Drop(frame) => DropKeepsInvariant(s, frame);
    case Take(i) => TakeKeepsInvariant(s, i);
    case Done(i) => DoneKeepsInvariant(s, i);
    case Connect(m_type, m_camera, interval) => ConnectKeepsInvariant(s, m_type, m_camera, interval);
    case Disconnect(i) => DisconnectKeepsInvariant(s, i);
  }

  // ---- Whole runs ----

  /** Whatever the interleaving: counters equal references, every frame without any has been deleted, no frame twice,
      and no queue exceeds seven frames. */
  lemma {:induction false} EveryRun(events: seq<Event>)
    ensures Invariant(Run(INITIAL, events))
  {
    hide Step;
    if events == [] {
      assert AllOwned([]) == multiset{};
    } else {
      EveryRun(events[..|events| - 1]);
      StepKeepsInvariant(Run(INITIAL, events[..|events| - 1]), events[|events| - 1]);
    }
  }

  /** A frame is deleted in exactly the step that takes away its last reference, and stays deleted. */
  lemma DeletedAtLastReference(events: seq<Event>, k: nat, frame: FrameId)
    requires k < |events|
    ensures var s, t := Run(INITIAL, events[..k]), Run(INITIAL, events[..k + 1]);
            && (frame in t.deleted && frame !in s.deleted <==> Refs(s)[frame] > 0 && Refs(t)[frame] == 0)
            && s.deleted <= t.deleted
  {
    hide Step, Conserved, AllOwned;
    EveryRun(events[..k]);
    assert events[..k + 1][..k] == events[..k];
    StepDeletes(Run(INITIAL, events[..k]), events[k], frame);
  }

  lemma StepDeletes(s: State, e: Event, frame: FrameId)
    requires Invariant(s)
    ensures var t := Step(s, e);
            && (frame in t.deleted && frame !in s.deleted <==> Refs(s)[frame] > 0 && Refs(t)[frame] == 0)
            && s.deleted <= t.deleted
  {
    hide Step, Refs, QueuesBounded;
    StepKeepsInvariant(s, e);
    NextFrame(s, e);
    DeletedIff(s, frame);
    DeletedIff(Step(s, e), frame);
  }

  /** A frame that was made has been deleted iff nothing refers to it. */
  lemma DeletedIff(s: State, frame: FrameId)
    requires Invariant(s)
    ensures frame in s.deleted <==> frame < s.next && Refs(s)[frame] == 0
    ensures Refs(s)[frame] > 0 ==> frame < s.next
  {
  }

  /** Only publishing makes a frame, and it makes one that is referred to. */
  lemma NextFrame(s: State, e: Event)
    requires Invariant(s)
    ensures s.next <= Step(s, e).next <= s.next + 1
    ensures Step(s, e).next == s.next + 1 ==> Refs(Step(s, e))[s.next] > 0
  {
    hide Conserved, AllOwned, Offer, Release;
    ReleaseKeepsNext();
  }

  lemma ReleaseKeepsNext()
    ensures forall s: State, frame: FrameId :: Release(s, frame).next == s.next
  {
  }

  /** With no request left and no thread at work, the frames deleted are all frames ever made. */
  lemma NothingLeaks(events: seq<Event>)
    requires var s := Run(INITIAL, events); s.requests == [] && s.held == multiset{}
    ensures var s := Run(INITIAL, events); s.m_counter == map[] && forall f: FrameId :: f < s.next <==> f in s.deleted
  {
    EveryRun(events);
    assert AllOwned([]) == multiset{};
    hide Run;
  }

  lemma {:induction false} RunConcat(s: State, a: seq<Event>, b: seq<Event>)
    ensures Run(s, a + b) == Run(Run(s, a), b)
  {
    hide Step;
    if b == [] {
      assert a + b == a;
    } else {
      assert (a + b)[..|a + b| - 1] == a + b[..|b| - 1];
      RunConcat(s, a, b[..|b| - 1]);
    }
  }

  // ---- The order of each request's frames ----

  /** What the sender has taken, followed by what is queued, is what was accepted; the frame being sent is the one
      taken last. */
  ghost predicate InOrder(r: Request) {
    && r.taken + r.m_frames == r.accepted
    && (r.sending.Some? ==> r.taken != [] && r.taken[|r.taken| - 1] == r.sending.value)
  }

  ghost predicate Ordered(s: State) {
    forall i | 0 <= i < |s.requests| :: InOrder(s.requests[i])
  }

  /** The three outcomes of an offer: behind the queue, refused by the rate gate, or refused by a full queue, which
      makes the request wait for an I-frame. */
  lemma OfferOutcome(r: Request, frame: FrameId, interval: nat)
    ensures var (o, queued) := Offer(r, frame, interval);
            && (queued <==> Pass(r.gate, r.m_interval, interval).1 && |r.m_frames| < 7)
            && (queued ==> o.m_frames == r.m_frames + [frame] && o.accepted == r.accepted + [frame])
            && (!queued ==> o.m_frames == r.m_frames && o.accepted == r.accepted)
            && (o.m_iframe <==> r.m_iframe || (Pass(r.gate, r.m_interval, interval).1 && |r.m_frames| >= 7))
            && o.m_first == r.m_first && o.taken == r.taken && o.sending == r.sending
            && o.m_camera == r.m_camera && o.m_type == r.m_type && o.m_interval == r.m_interval
  {
    hide Pass;
  }

  lemma OfferKeepsOrder(r: Request, frame: FrameId, interval: nat)
    requires InOrder(r)
    ensures InOrder(Offer(r, frame, interval).0)
  {
    hide Offer, Pass;
    OfferOutcome(r, frame, interval);
  }

  lemma TakeKeepsOrder(r: Request)
    requires InOrder(r)
    ensures r.m_frames != [] ==> InOrder(TakeFirst(r))
  {
    assert r.m_frames != [] ==> r.m_frames == [r.m_frames[0]] + r.m_frames[1..];
  }

  lemma StepKeepsOrder(s: State, e: Event)
    requires Ordered(s)
    ensures Ordered(Step(s, e))
  {
    hide Offer, Release, TakeFirst, InOrder, ClearFlags, NewRequest;
    ReleaseKeepsRequests();
    match e
    case Offered(i, frame, interval) =>
      if i < |s.requests| { OfferKeepsOrder(s.requests[i], frame, interval); }
    case Take(i) =>
      if i < |s.requests| { TakeKeepsOrder(s.requests[i]); }
    case Done(i) =>
      if i < |s.requests| { SentKeepsOrder(s.requests[i]); }
    case Cleared(i, first) =>
      if i < |s.requests| { ClearKeepsOrder(s.requests[i], first); }
    case Connect(m_type, m_camera, interval) =>
      NewIsInOrder(m_type, m_camera, interval);
    case Disconnect(i) =>
      DisconnectKeepsOrder(s, i);
    case _ =>
  }

  lemma DisconnectKeepsOrder(s: State, i: nat)
    requires Ordered(s)
    ensures Ordered(Step(s, Disconnect(i)))
  {
    hide InOrder;
  }

  lemma SentKeepsOrder(r: Request)
    requires InOrder(r)
    ensures InOrder(r.(sending := None))
  {
  }

  lemma ClearKeepsOrder(r: Request, first: bool)
    requires InOrder(r)
    ensures InOrder(ClearFlags(r, first))
  {
  }

  lemma NewIsInOrder(m_type: nat, m_camera: nat, interval: nat)
    ensures InOrder(NewRequest(m_type, m_camera, interval))
  {
  }

  lemma ReleaseKeepsRequests()
    ensures forall s: State, frame: FrameId :: Release(s, frame).requests == s.requests
  {
  }

  lemma {:induction false} RunKeepsOrder(s: State, events: seq<Event>)
    requires Ordered(s)
    ensures Ordered(Run(s, events))
  {
    hide Step, Ordered;
    if events != [] {
      RunKeepsOrder(s, events[..|events| - 1]);
      StepKeepsOrder(Run(s, events[..|events| - 1]), events[|events| - 1]);
    }
  }

  /** Over every interleaving each request's sender gets exactly the frames accepted for it, in the order of
      acceptance; those that it has not got are its queue. */
  lemma SentInOrder(events: seq<Event>)
    ensures Ordered(Run(INITIAL, events))
  {
    hide Run;
    RunKeepsOrder(INITIAL, events);
  }

  /** A new request comes last, wants a header and an I-frame, and has nothing queued. */
  lemma ConnectedRequest(s: State, m_type: nat, m_camera: nat, interval: nat)
    ensures var t, r := Step(s, Connect(m_type, m_camera, interval)), NewRequest(m_type, m_camera, interval);
            && t.requests == s.requests + [r] && t.m_counter == s.m_counter && t.held == s.held
            && r.m_type == m_type && r.m_camera == m_camera && r.m_first && r.m_iframe
            && r.m_frames == [] && r.sending == None && r.accepted == [] && r.taken == []
  {
  }

  /** A new request for one frame in every interval: of n offers at interval c all pass when the interval is 0 or 1 or
      at most c + 1, and 1 + floor(n * inc / 2^16) otherwise. */
  lemma ConnectedRequestThins(m_type: nat, m_camera: nat, interval: nat, c: nat, n: nat)
    requires 0 < c && n > 0 && interval <= 0x8000
    ensures var r := NewRequest(m_type, m_camera, interval);
            Offers(r.gate, r.m_interval, c, n).1
            == if interval <= c + 1 then n else 1 + n * (c * 0x1_0000 / (interval - 1)) / 0x1_0000
  {
    var r := NewRequest(m_type, m_camera, interval);
    hide Pass, Offers;
    if interval <= c + 1 {
      UngatedPassAll(r.gate, r.m_interval, c, n);
    } else {
      ThinningIsExact(r.m_interval, c, n);
    }
  }

  // ---- One request through a run ----

  /** Where a request stands after one more step: removing one in front of it moves it up. */
  function Place(s: State, e: Event, i: nat): Option<nat> {
    if e.Disconnect? && e.request < |s.requests| && s.requests[e.request].sending.None? then
      if e.request == i then None else if e.request < i then Some(i - 1) else Some(i)
    else Some(i)
  }

  function PlaceAfter(s: State, events: seq<Event>, i: nat): Option<nat> {
    if events == [] then Some(i)
    else
      var front := events[..|events| - 1];
      match PlaceAfter(s, front, i)
      case None => None
      case Some(k) => Place(Run(s, front), events[|events| - 1], k)
  }

  /** The same request later: accepted and taken have only grown, and m_first was not set again. */
  ghost predicate Later(r: Request, r': Request) {
    && r'.m_type == r.m_type && r'.m_camera == r.m_camera && r'.m_interval == r.m_interval
    && r.accepted <= r'.accepted && r.taken <= r'.taken
    && (r'.m_first ==> r.m_first)
  }

  lemma StepOnward(s: State, e: Event, i: nat)
    requires i < |s.requests| && Place(s, e, i).Some?
    ensures var t, k := Step(s, e), Place(s, e, i).value; k < |t.requests| && Later(s.requests[i], t.requests[k])
  {
    hide Offer, Release, Later, TakeFirst, ClearFlags, NewRequest;
    ReleaseKeepsRequests();
    LaterLaws(s.requests[i]);
    match e
    case Offered(_, frame, interval) => OfferLater(s.requests[i], frame, interval);
    case _ =>
  }

  lemma LaterLaws(r: Request)
    ensures Later(r, r) && Later(r, r.(sending := None)) && forall first: bool :: Later(r, ClearFlags(r, first))
    ensures r.m_frames != [] ==> Later(r, TakeFirst(r))
  {
  }

  lemma OfferLater(r: Request, frame: FrameId, interval: nat)
    ensures Later(r, Offer(r, frame, interval).0)
  {
    hide Offer;
    OfferOutcome(r, frame, interval);
  }

  /** Through every run, as long as a request is there. */
  lemma {:induction false} RequestOnward(s: State, events: seq<Event>, i: nat)
    requires i < |s.requests| && PlaceAfter(s, events, i).Some?
    ensures var t, k := Run(s, events), PlaceAfter(s, events, i).value;
            k < |t.requests| && Later(s.requests[i], t.requests[k])
  {
    hide Step, Place;
    if events != [] {
      var front := events[..|events| - 1];
      RequestOnward(s, front, i);
      StepOnward(Run(s, front), events[|events| - 1], PlaceAfter(s, front, i).value);
    }
  }
}
