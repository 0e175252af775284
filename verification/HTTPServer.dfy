/** The server object: its methods take the steps of the value model. */
module HTTPServer {
  import opened FrameRefs
  import opened VideoFrames
  import opened RateGate
  import opened Wrappers

  class WAPAHTTPServer {
    var m_requests: seq<Request>
    var m_counter: map<FrameId, int>
    var next: nat
    ghost var deleted: seq<FrameId>
    var held: multiset<FrameId>           // references held by threads that publish or destroy

    ghost function Model(): State
      reads this
    {
      State(m_requests, m_counter, next, deleted, held)
    }

    ghost predicate Valid()
      reads this
    {
      Invariant(Model()) && Ordered(Model())
    }

    constructor ()
      ensures Valid() && Model() == INITIAL
    {
      hide Step, Invariant, Ordered;
      EveryRun([]);
      SentInOrder([]);
      assert Run(INITIAL, []) == INITIAL;
      m_requests, m_counter, next, deleted, held := [], map[], 0, [], multiset{};
    }

    /** new FrameHolder: the publisher has its only reference. */
    method NewFrame() returns (frame: FrameId)
      requires Valid()
      modifies this`m_counter, this`next, this`held
      ensures Valid() && frame == old(next) && Model() == Step(old(Model()), Publish)
    {
      hide Invariant, Ordered;
      StepKeepsInvariant(Model(), Publish);
      StepKeepsOrder(Model(), Publish);
      frame := next;
      next := next + 1;
      m_counter := m_counter[frame := 1];
      held := held + multiset{frame};
    }

    /** FrameHolder.AddRef. */
    method AddRef(frame: FrameId)
      requires frame in m_counter
      modifies this`m_counter
      ensures Model() == AddReference(old(Model()), frame)
    {
      m_counter := m_counter[frame := m_counter[frame] + 1];
    }

    /** FrameHolder.ReleaseAndDelete: one reference less, and deletion with the last. */
    method ReleaseAndDelete(frame: FrameId)
      requires frame in m_counter
      modifies this`m_counter, this`deleted
      ensures Model() == Release(old(Model()), frame)
    {
      var left := m_counter[frame] - 1;
      if !(left > 0) {
        m_counter := m_counter - {frame};
        deleted := deleted + [frame];
      } else {
        m_counter := m_counter[frame := left];
      }
    }

    /** RequestHolder.AddFrame: gate, then queue unless seven frames are waiting; the queue takes a reference. */
    method AddFrame(i: nat, frame: FrameId, interval: nat) returns (result: bool)
      requires Valid() && i < |m_requests| && held[frame] > 0
      modifies this`m_requests, this`m_counter
      ensures Valid() && Model() == Step(old(Model()), Offered(i, frame, interval))
      ensures result == Offer(old(m_requests)[i], frame, interval).1
    {
      hide Invariant, Ordered;
      ghost var s := Model();
      StepKeepsInvariant(s, Offered(i, frame, interval));
      StepKeepsOrder(s, Offered(i, frame, interval));
      HeldFrameLives(s, frame);
      var r := m_requests[i];
      var (gate, pass) := Pass(r.gate, r.m_interval, interval);
      r := r.(gate := gate);
      result := pass;
      if pass {
        if |r.m_frames| <= 6 {
          AddRef(frame);
          r := r.(m_frames := r.m_frames + [frame], accepted := r.accepted + [frame]);
        } else {
          r := r.(m_iframe := true);
          result := false;
        }
      }
      m_requests := m_requests[i := r];
    }

    /** A thread gives up a reference it holds. */
    method ReleaseHeld(frame: FrameId)
      requires Valid() && held[frame] > 0
      modifies this`m_counter, this`deleted, this`held
      ensures Valid() && Model() == Step(old(Model()), Drop(frame))
      ensures held == old(held) - multiset{frame}
    {
      hide Invariant, Ordered, Release;
      StepKeepsInvariant(Model(), Drop(frame));
      StepKeepsOrder(Model(), Drop(frame));
      HeldFrameLives(Model(), frame);
      held := held - multiset{frame};
      ReleaseAndDelete(frame);
    }

    /** RequestHolder.GetFrameAndRemove, called by the sender thread when it has no frame. */
    method Dequeue(i: nat)
      requires Valid() && i < |m_requests| && m_requests[i].sending.None?
      modifies this`m_requests
      ensures Valid() && Model() == Step(old(Model()), Take(i))
    {
      hide Invariant, Ordered;
      StepKeepsInvariant(Model(), Take(i));
      StepKeepsOrder(Model(), Take(i));
      var r := m_requests[i];
      if |r.m_frames| > 0 {
        var frame := r.m_frames[0];
        r := r.(sending := Some(frame), taken := r.taken + [frame]);
        m_requests := m_requests[i := r.(m_frames := r.m_frames[1..])];
      }
    }

    /** The sender thread is done with its frame. */
    method Finish(i: nat)
      requires Valid() && i < |m_requests| && m_requests[i].sending.Some?
      modifies this`m_requests, this`m_counter, this`deleted
      ensures Valid() && Model() == Step(old(Model()), Done(i))
    {
      hide Invariant, Ordered, Release;
      StepKeepsInvariant(Model(), Done(i));
      StepKeepsOrder(Model(), Done(i));
      SentFrameLives(Model(), i);
      var r := m_requests[i];
      m_requests := m_requests[i := r.(sending := None)];
      ReleaseAndDelete(r.sending.value);
    }

    method AddRequest(m_type: nat, m_camera: nat, interval: nat)
      requires Valid()
      modifies this`m_requests
      ensures Valid() && Model() == Step(old(Model()), Connect(m_type, m_camera, interval))
    {
      hide Invariant, Ordered;
      StepKeepsInvariant(Model(), Connect(m_type, m_camera, interval));
      StepKeepsOrder(Model(), Connect(m_type, m_camera, interval));
      m_requests := m_requests + [NewRequest(m_type, m_camera, interval)];
    }

    /** DelRequest and then the destructor, once the sender thread has let go of its frame. */
    method DelRequest(i: nat)
      requires Valid() && i < |m_requests| && m_requests[i].sending.None?
      modifies this
      ensures Valid()
      ensures Model() == Run(old(Model()), [Disconnect(i)] + Drops(old(m_requests)[i].m_frames))
    {
      hide Invariant, Ordered, Release, Step, Run;
      ghost var s := Model();
      DisconnectStep(s, i);
      RunOne(s, Disconnect(i));
      var frames := m_requests[i].m_frames;
      RemoveRequest(i);
      ReleaseQueue(frames);
      RunConcat(s, [Disconnect(i)], Drops(frames));
    }

    /** The destructor releases the queued frames one by one, each under the counter's lock. */
    method ReleaseQueue(frames: seq<FrameId>)
      requires Valid() && multiset(frames) <= held
      modifies this`m_counter, this`deleted, this`held
      ensures Valid() && Model() == Run(old(Model()), Drops(frames))
    {
      hide Invariant, Ordered, Release, Step, Run, Drops;
      ghost var t := Model();
      DropsGrow(frames, 0);
      for k := 0 to |frames|
        invariant Valid() && Model() == Run(t, Drops(frames[..k])) && multiset(frames[k..]) <= held
      {
        DropsGrow(frames, k);
        OneLess(frames[k], frames[k + 1..], held);
        RunMore(t, Drops(frames[..k]), Drop(frames[k]));
        ReleaseHeld(frames[k]);
      }
      assert frames[..|frames|] == frames;
    }

    /** DelRequest: the request leaves the list. */
    method RemoveRequest(i: nat)
      requires Valid() && i < |m_requests| && m_requests[i].sending.None?
      modifies this`m_requests, this`held
      ensures Valid() && Model() == Step(old(Model()), Disconnect(i))
    {
      hide Invariant, Ordered;
      StepKeepsInvariant(Model(), Disconnect(i));
      StepKeepsOrder(Model(), Disconnect(i));
      held := held + multiset(m_requests[i].m_frames);
      m_requests := m_requests[..i] + m_requests[i + 1..];
    }

    /** The header frame in front of a first I-frame. */
    method OfferHeader(i: nat, interval: nat) returns (added: bool)
      requires Valid() && i < |m_requests|
      modifies this
      ensures Valid() && Model() == Run(old(Model()), HeaderEvents(old(m_requests)[i], i, old(next), interval))
      ensures added == AfterHeader(old(m_requests)[i], old(next), interval).1
    {
      hide Invariant, Ordered, Step, Run, Offer;
      ghost var s, h := Model(), next;
      RunThree(s, Publish, Offered(i, h, interval), Drop(h));
      RunFour(s, Publish, Offered(i, h, interval), Cleared(i, true), Drop(h));
      PublishStep(s);
      var fframe := NewFrame();
      OfferedStep(Model(), i, h, interval);
      added := AddFrame(i, fframe, interval);
      ClearedStep(Model(), i, true);
      if added { ClearRequestFlags(i, true); }
      ReleaseHeld(fframe);
    }

    /** needIFrame and the offer behind it. */
    method OfferGated(i: nat, frame: FrameId, frameType: nat, interval: nat)
      requires Valid() && i < |m_requests| && held[frame] > 0
      modifies this
      ensures Valid() && Model() == Run(old(Model()), GatedEvents(old(m_requests)[i], i, frame, frameType, interval))
    {
      hide Invariant, Ordered, Step, Run, Offer;
      ghost var s, e := Model(), Offered(i, frame, interval);
      RunOne(s, e);
      RunTwo(s, e, Cleared(i, false));
      OfferedStep(s, i, frame, interval);
      if m_requests[i].m_iframe {
        if frameType < 0x80 {
          var added := AddFrame(i, frame, interval);
          if added { ClearRequestFlags(i, false); }
        }
      } else {
        var added := AddFrame(i, frame, interval);
      }
    }

    /** What OnVideoFrame does for one request: a first I-frame is preceded by a header frame of its own. */
    method OfferFrame(i: nat, frame: FrameId, camera: nat, frameType: nat, interval: nat)
      requires Valid() && i < |m_requests| && held[frame] > 0
      modifies this
      ensures Valid()
      ensures Model() == Run(old(Model()),
                  RequestEvents(old(m_requests)[i], i, frame, camera, frameType, interval, old(next)))
    {
      hide Invariant, Ordered, Step, Run, Offer, HeaderEvents, AfterHeader, GatedEvents;
      ghost var s := Model();
      var r := m_requests[i];
      RunOne(s, Offered(i, frame, interval));
      if r.m_camera == camera && frameType % 16 == r.m_type {
        if frameType == MPEG4_HD_TYPE || frameType == MPEG4_CIF_TYPE {
          if r.m_first && frameType < 0x80 {
            HeaderRun(s, i, interval);
            ghost var events := HeaderEvents(r, i, next, interval);
            var canContinue := OfferHeader(i, interval);
            if canContinue {
              RunConcat(s, events, GatedEvents(m_requests[i], i, frame, frameType, interval));
              OfferGated(i, frame, frameType, interval);
            } else {
              assert events + [] == events;
            }
          } else {
            OfferGated(i, frame, frameType, interval);
          }
        } else {
          var added := AddFrame(i, frame, interval);
        }
      }
    }

    /** WAPAHTTPServer.OnVideoFrame: a new frame, offered to every request and then released. */
    method OnVideoFrame(camera: nat, frameType: nat, interval: nat) returns (frame: FrameId)
      requires Valid() && frameType < 256
      modifies this
      ensures Valid() && frame == old(next)
      ensures Model() == Run(old(Model()), VideoEvents(old(Model()), camera, frameType, interval))
    {
      hide Invariant, Ordered, Step, Run, RequestEvents, Served, Headers;
      ghost var s, n := Model(), |m_requests|;
      RunOne(s, Publish);
      PublishStep(s);
      frame := NewFrame();
      ghost var t := Model();
      ghost var rs := m_requests;
      assert OfferEvents(rs, 0, frame, camera, frameType, interval) == [];
      RunOne(t, Publish);
      for i := 0 to |m_requests|
        invariant Valid() && |m_requests| == n
        invariant Model() == Run(t, OfferEvents(rs, i, frame, camera, frameType, interval))
      {
        OfferRun(t, i, frame, camera, frameType, interval);
        ghost var events := OfferEvents(rs, i, frame, camera, frameType, interval);
        RunConcat(t, events, RequestEvents(rs[i], i, frame, camera, frameType, interval, next));
        OfferRun(t, i + 1, frame, camera, frameType, interval);
        OfferFrame(i, frame, camera, frameType, interval);
      }
      OfferRun(t, n, frame, camera, frameType, interval);
      ghost var offers := OfferEvents(rs, n, frame, camera, frameType, interval);
      RunConcat(s, [Publish], offers);
      RunMore(s, [Publish] + offers, Drop(frame));
      ReleaseHeld(frame);
    }

    /** clearIFrame, and clearFirst where asked for. */
    method ClearRequestFlags(i: nat, first: bool)
      requires Valid() && i < |m_requests|
      modifies this`m_requests
      ensures Valid() && Model() == Step(old(Model()), Cleared(i, first))
    {
      hide Invariant, Ordered;
      StepKeepsInvariant(Model(), Cleared(i, first));
      StepKeepsOrder(Model(), Cleared(i, first));
      var r := m_requests[i];
      if first { r := r.(m_first := false); }
      m_requests := m_requests[i := r.(m_iframe := false)];
    }
  }

  lemma HeldFrameLives(s: State, frame: FrameId)
    requires Invariant(s) && s.held[frame] > 0
    ensures frame in s.m_counter
  {
    hide AllOwned;
    assert Refs(s)[frame] > 0;
  }

  lemma SentFrameLives(s: State, i: nat)
    requires Invariant(s) && i < |s.requests| && s.requests[i].sending.Some?
    ensures s.requests[i].sending.value in s.m_counter
  {
    var frame := s.requests[i].sending.value;
    assert Owned(s.requests[i])[frame] > 0;
    OwnedByOne(s.requests, frame);
    hide Owned, AllOwned;
    assert Refs(s)[frame] > 0;
  }

  /** One release for every frame of a queue. */
  function Drops(frames: seq<FrameId>): seq<Event> {
    seq(|frames|, k requires 0 <= k < |frames| => Drop(frames[k]))
  }

  lemma OneLess(frame: FrameId, rest: seq<FrameId>, refs: multiset<FrameId>)
    requires multiset([frame] + rest) <= refs
    ensures refs[frame] > 0 && multiset(rest) <= refs - multiset{frame}
  {
    assert multiset([frame] + rest) == multiset{frame} + multiset(rest);
  }

  lemma DropsGrow(frames: seq<FrameId>, k: nat)
    ensures Drops(frames[..0]) == [] && (forall s: State :: Run(s, []) == s) && frames[0..] == frames
    ensures k < |frames| ==>
              && Drops(frames[..k + 1]) == Drops(frames[..k]) + [Drop(frames[k])]
              && frames[k..] == [frames[k]] + frames[k + 1..]
  {
  }

  lemma DisconnectStep(s: State, i: nat)
    requires i < |s.requests| && s.requests[i].sending.None?
    ensures Step(s, Disconnect(i)).held == s.held + multiset(s.requests[i].m_frames)
  {
  }
}
