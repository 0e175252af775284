/** The camera's MPEG4 framer: a hello record, then frames of a 16-byte header and a payload, received in whatever
    pieces recv happens to return. */
module Mpeg4Framer {
  import opened Bytes

  const MAX_CAMERA_BUFFER := 512 * 1024

  datatype Frame = Frame(ftype: bv8, width: nat, height: nat, data: Bytes)

  /** The framer's variables: held is buffer[..position]. */
  datatype Machine = Machine(
    state: nat,
    size: int,
    held: Bytes,
    ftype: bv8,
    hd: (nat, nat),
    cif: (nat, nat),
    disconnect: bool,
    frames: seq<Frame>)

  function Little16(b: Bytes, at: nat): nat
    requires at + 2 <= |b|
  {
    b[at] as nat + b[at + 1] as nat * 0x100
  }

  /** The unsigned size field, stored into a signed int. */
  function SizeField(b: Bytes): int
    requires 8 <= |b|
  {
    var u := Little16(b, 4) + Little16(b, 6) * 0x1_0000;
    if u < 0x8000_0000 then u else u - 0x1_0000_0000
  }

  function Dimensions(ftype: bv8, hd: (nat, nat), cif: (nat, nat)): (nat, nat) {
    if ftype == 0x80 || ftype == 0x00 then hd
    else if ftype == 0x82 || ftype == 0x02 then cif
    else (0, 0)
  }

  const START := Machine(0, 16, [], 0xFF, (0, 0), (0, 0), false, [])

  /** What happens when the expected number of bytes is complete. */
  function Act(m: Machine): Machine
    requires m.state < 2 ==> |m.held| >= 16
  {
    var b := m.held;
    if m.state == 0 then
      if b[0] == 0x07 && b[1] == 0x61
      then m.(held := [], state := 1, hd := (Little16(b, 4), Little16(b, 6)), cif := (Little16(b, 8), Little16(b, 10)))
      else m.(held := [], disconnect := true)
    else if m.state == 1 then
      var m1 := m.(held := [], ftype := b[0], size := SizeField(b));
      if m1.size <= MAX_CAMERA_BUFFER then m1.(state := 2) else m1.(disconnect := true)
    else
      var (width, height) := Dimensions(m.ftype, m.hd, m.cif);
      m.(held := [], state := 1, size := 16, frames := m.frames + [Frame(m.ftype, width, height, b)])
  }

  /** The framer is waiting for more bytes of the current item, which fit its buffer. It goes on after it has decided to
      disconnect, for as long as the socket has bytes. */
  predicate Waiting(m: Machine) {
    |m.held| < m.size <= MAX_CAMERA_BUFFER && m.state <= 2 && (m.state < 2 ==> m.size == 16)
  }

  /** One byte at a time: the meaning of a byte stream, without any chunking. A framer that waits for nothing, or for
      more than its buffer holds, takes nothing. */
  function Feed(m: Machine, input: Bytes): Machine
  {
    if input == [] then m
    else
      var m1 := Feed(m, input[..|input| - 1]);
      if !Waiting(m1) then m1
      else
        var m2 := m1.(held := m1.held + [input[|input| - 1]]);
        if |m2.held| < m2.size then m2 else Act(m2)
  }

  /** Feeding in two parts is feeding the whole. */
  lemma {:induction false} FeedConcat(m: Machine, x: Bytes, y: Bytes)
    ensures Feed(m, x + y) == Feed(Feed(m, x), y)
  {
    hide Act;
    if y == [] {
      assert x + y == x;
    } else {
      assert (x + y)[..|x + y| - 1] == x + y[..|y| - 1];
      FeedConcat(m, x, y[..|y| - 1]);
    }
  }

  /** Bytes that do not go beyond the current item are collected, and completing it acts on it. */
  lemma {:induction false} FeedWithinItem(m: Machine, chunk: Bytes)
    requires Waiting(m) && |m.held| + |chunk| <= m.size
    ensures var m1 := m.(held := m.held + chunk);
            Feed(m, chunk) == if |m1.held| < m1.size then m1 else Act(m1)
  {
    hide Act;
    if chunk == [] {
      assert m.held + chunk == m.held;
    } else {
      var front := chunk[..|chunk| - 1];
      FeedWithinItem(m, front);
      assert m.held + chunk == m.held + front + [chunk[|chunk| - 1]];
    }
  }

  // ---- Well-formed streams ----

  datatype Packet = Packet(header: Bytes, payload: Bytes)

  ghost predicate WellFormedHello(hello: Bytes) {
    |hello| == 16 && hello[0] == 0x07 && hello[1] == 0x61
  }

  /** The number in bytes 4 to 7 of a header, least significant first. */
  ghost function Announced(header: Bytes): nat
    requires |header| == 16
  {
    header[4] as nat + header[5] as nat * 256 + header[6] as nat * 65536 + header[7] as nat * 16777216
  }

  /** A header announcing a payload of 1 to 512K bytes, and that payload. */
  ghost predicate WellFormed(p: Packet) {
    |p.header| == 16 && 1 <= |p.payload| <= 524288 && Announced(p.header) == |p.payload|
  }

  /** The size read from a header is the number announced, as a signed 32-bit value. */
  lemma SizeIsAnnounced(header: Bytes)
    requires |header| == 16
    ensures SizeField(header)
            == if Announced(header) < 0x8000_0000 then Announced(header) else Announced(header) - 0x1_0000_0000
    ensures Announced(header) < 0x1_0000_0000
  {
  }

  ghost function Stream(ps: seq<Packet>): Bytes {
    if ps == [] then [] else ps[0].header + ps[0].payload + Stream(ps[1..])
  }

  /** Types 0x80 and 0x00 have the dimensions in bytes 4 to 7 of the hello record, 0x82 and 0x02 those in bytes 8 to 11,
      width before height and the low byte first; other types have none. */
  ghost function FrameOf(p: Packet, hello: Bytes): Frame
    requires WellFormedHello(hello) && WellFormed(p)
  {
    match p.header[0]
    case 0x80 | 0x00 =>
      Frame(p.header[0], hello[4] as nat + 256 * hello[5] as nat, hello[6] as nat + 256 * hello[7] as nat, p.payload)
    case 0x82 | 0x02 =>
      Frame(p.header[0], hello[8] as nat + 256 * hello[9] as nat, hello[10] as nat + 256 * hello[11] as nat, p.payload)
    case _ => Frame(p.header[0], 0, 0, p.payload)
  }

  lemma FrameIs(m: Machine, hello: Bytes, p: Packet)
    requires WellFormedHello(hello) && Between(m, hello) && WellFormed(p)
    ensures var (width, height) := Dimensions(p.header[0], m.hd, m.cif);
            Frame(p.header[0], width, height, p.payload) == FrameOf(p, hello)
  {
  }

  ghost function FramesOf(ps: seq<Packet>, hello: Bytes): seq<Frame>
    requires WellFormedHello(hello) && forall i | 0 <= i < |ps| :: WellFormed(ps[i])
  {
    seq(|ps|, i requires 0 <= i < |ps| => FrameOf(ps[i], hello))
  }

  /** The framer between packets. */
  ghost predicate Between(m: Machine, hello: Bytes)
    requires WellFormedHello(hello)
  {
    m.state == 1 && m.size == 16 && m.held == [] && !m.disconnect
    && m.hd == (Little16(hello, 4), Little16(hello, 6)) && m.cif == (Little16(hello, 8), Little16(hello, 10))
  }

  lemma HelloAccepted(hello: Bytes)
    requires WellFormedHello(hello)
    ensures Between(Feed(START, hello), hello) && Feed(START, hello).frames == []
  {
    FeedWithinItem(START, hello);
    assert START.held + hello == hello;
  }

  /** Sixteen bytes that do not begin with 07 61 are dropped, the connection is to be closed, and the framer waits for a
      hello record again. */
  lemma HelloRefused(hello: Bytes)
    requires |hello| == 16 && (hello[0] != 0x07 || hello[1] != 0x61)
    ensures Feed(START, hello) == START.(disconnect := true)
  {
    FeedWithinItem(START, hello);
    assert START.held + hello == hello;
  }

  /** A header leaves the framer waiting for exactly the payload it announces. */
  lemma HeaderAccepted(m: Machine, hello: Bytes, p: Packet)
    requires WellFormedHello(hello) && Between(m, hello) && WellFormed(p)
    ensures Feed(m, p.header) == m.(state := 2, size := |p.payload|, ftype := p.header[0])
  {
    SizeIsAnnounced(p.header);
    FeedWithinItem(m, p.header);
    assert m.held + p.header == p.header;
  }

  /** A complete packet is delivered as one frame. */
  lemma PacketDelivered(m: Machine, hello: Bytes, p: Packet)
    requires WellFormedHello(hello) && Between(m, hello) && WellFormed(p)
    ensures var m' := Feed(m, p.header + p.payload);
            Between(m', hello) && m'.frames == m.frames + [FrameOf(p, hello)]
  {
    hide Feed, FrameOf, Dimensions, Announced, SizeField, Act;
    FeedConcat(m, p.header, p.payload);
    HeaderAccepted(m, hello, p);
    PayloadAccepted(m, hello, p);
    FrameIs(m, hello, p);
  }

  /** The payload completes the frame and leaves the framer waiting for a header. */
  lemma PayloadAccepted(m: Machine, hello: Bytes, p: Packet)
    requires WellFormedHello(hello) && Between(m, hello) && WellFormed(p)
    ensures var m1 := m.(state := 2, size := |p.payload|, ftype := p.header[0]);
            var (width, height) := Dimensions(p.header[0], m.hd, m.cif);
            Feed(m1, p.payload)
            == m.(ftype := p.header[0], frames := m.frames + [Frame(p.header[0], width, height, p.payload)])
  {
    hide Feed, Dimensions, Announced;
    var m1 := m.(state := 2, size := |p.payload|, ftype := p.header[0]);
    FeedWithinItem(m1, p.payload);
    assert m1.held + p.payload == p.payload;
  }

  // ---- Every prefix ----

  /** How many packets of the stream are complete within its first n bytes. */
  ghost function Complete(ps: seq<Packet>, n: nat): (k: nat)
    ensures k <= |ps|
  {
    if ps == [] || n < |ps[0].header| + |ps[0].payload| then 0
    else 1 + Complete(ps[1..], n - |ps[0].header| - |ps[0].payload|)
  }

  /** The bytes of the item, header or payload, that the first n bytes of the stream leave unfinished, and whether
      it is a payload. */
  ghost function Unfinished(ps: seq<Packet>, n: nat): (Bytes, bool)
  {
    if ps == [] then ([], false)
    else
      var p := ps[0];
      if n < |p.header| then (p.header[..n], false)
      else if n < |p.header| + |p.payload| then (p.payload[..n - |p.header|], true)
      else Unfinished(ps[1..], n - |p.header| - |p.payload|)
  }

  lemma FirstUnfinished(m: Machine, hello: Bytes, p: Packet, n: nat)
    requires WellFormedHello(hello) && Between(m, hello) && WellFormed(p) && n < |p.header| + |p.payload|
    ensures var m' := Feed(m, (p.header + p.payload)[..n]);
            && !m'.disconnect && m'.frames == m.frames
            && m'.held == (if n < 16 then p.header[..n] else p.payload[..n - 16])
            && m'.state == (if n < 16 then 1 else 2)
  {
    hide Act, Feed, SizeField, Announced;
    if n < 16 {
      assert (p.header + p.payload)[..n] == p.header[..n];
      FeedWithinItem(m, p.header[..n]);
    } else {
      assert (p.header + p.payload)[..n] == p.header + p.payload[..n - 16];
      FeedConcat(m, p.header, p.payload[..n - 16]);
      HeaderAccepted(m, hello, p);
      FeedWithinItem(Feed(m, p.header), p.payload[..n - 16]);
    }
  }

  lemma FeedNothing(m: Machine, hello: Bytes)
    requires WellFormedHello(hello)
    ensures Feed(m, []) == m && FramesOf([], hello) == []
  {
  }

  lemma FramesCons(p: Packet, ps: seq<Packet>, hello: Bytes)
    requires WellFormedHello(hello) && WellFormed(p) && forall i | 0 <= i < |ps| :: WellFormed(ps[i])
    ensures FramesOf([p] + ps, hello) == [FrameOf(p, hello)] + FramesOf(ps, hello)
  {
    hide FrameOf, WellFormed;
  }

  /** The first packet, and then the rest. */
  lemma ByPacket(ps: seq<Packet>, n: nat)
    ensures ps == [] ==> Stream(ps) == [] && Complete(ps, n) == 0 && Unfinished(ps, n) == ([], false)
    ensures ps != [] ==>
              var h, p := |ps[0].header|, ps[0].header + ps[0].payload;
              && Stream(ps) == p + Stream(ps[1..])
              && if n < |p| then
                   && Complete(ps, n) == 0
                   && Unfinished(ps, n) == if n < h then (ps[0].header[..n], false) else (ps[0].payload[..n - h], true)
                 else
                   && Complete(ps, n) == 1 + Complete(ps[1..], n - |p|)
                   && Unfinished(ps, n) == Unfinished(ps[1..], n - |p|)
  {
  }

  lemma {:induction false} PacketsDelivered(m: Machine, hello: Bytes, ps: seq<Packet>, n: nat)
    requires WellFormedHello(hello) && Between(m, hello) && n <= |Stream(ps)|
    requires forall i | 0 <= i < |ps| :: WellFormed(ps[i])
    ensures var m' := Feed(m, Stream(ps)[..n]);
            && !m'.disconnect
            && m'.frames == m.frames + FramesOf(ps[..Complete(ps, n)], hello)
            && (m'.held, m'.state == 2) == Unfinished(ps, n) && m'.state != 0
    decreases |ps|
  {
    hide Act, Feed, FramesOf, FrameOf, SizeField, Announced, Waiting, Complete, Unfinished, Stream;
    ByPacket(ps, n);
    if ps == [] {
      assert Stream(ps)[..n] == [];
      FeedNothing(m, hello);
    } else {
      var p, rest := ps[0].header + ps[0].payload, Stream(ps[1..]);
      assert WellFormed(ps[0]);
      if n < |p| {
        assert Stream(ps)[..n] == p[..n];
        FirstUnfinished(m, hello, ps[0], n);
        FeedNothing(m, hello);
        assert ps[..0] == [] && m.frames + [] == m.frames;
      } else {
        assert Stream(ps)[..n] == p + rest[..n - |p|];
        FeedConcat(m, p, rest[..n - |p|]);
        PacketDelivered(m, hello, ps[0]);
        PacketsDelivered(Feed(m, p), hello, ps[1..], n - |p|);
        var k := Complete(ps[1..], n - |p|);
        assert ps[..k + 1] == [ps[0]] + ps[1..][..k];
        FramesCons(ps[0], ps[1..][..k], hello);
      }
    }
  }

  /** After any prefix of a well-formed stream the frames delivered are exactly its complete packets, with their type
      and dimensions, and the buffer holds exactly the bytes of the item that is still incomplete. */
  lemma DeliveredExactly(hello: Bytes, ps: seq<Packet>, n: nat)
    requires WellFormedHello(hello) && forall i | 0 <= i < |ps| :: WellFormed(ps[i])
    requires n <= 16 + |Stream(ps)|
    ensures var m := Feed(START, (hello + Stream(ps))[..n]);
            !m.disconnect &&
            if n < 16 then m.frames == [] && m.held == hello[..n] && m.state == 0
            else m.frames == FramesOf(ps[..Complete(ps, n - 16)], hello)
                 && (m.held, m.state == 2) == Unfinished(ps, n - 16) && m.state != 0
  {
    hide Act, Feed, FrameOf, Stream, Complete, Unfinished;
    if n < 16 {
      assert (hello + Stream(ps))[..n] == hello[..n];
      FeedWithinItem(START, hello[..n]);
      assert START.held + hello[..n] == hello[..n];
    } else {
      var m := Feed(START, hello);
      HelloAccepted(hello);
      assert (hello + Stream(ps))[..n] == hello + Stream(ps)[..n - 16];
      FeedConcat(START, hello, Stream(ps)[..n - 16]);
      PacketsDelivered(m, hello, ps, n - 16);
      assert m.frames + FramesOf(ps[..Complete(ps, n - 16)], hello) == FramesOf(ps[..Complete(ps, n - 16)], hello);
    }
  }

  /** What the framer asks recv for next stays inside the buffer. */
  predicate AsksInside(m: Machine) {
    0 <= m.size - |m.held| && |m.held| + (m.size - |m.held|) <= MAX_CAMERA_BUFFER
  }

  /** After any well-formed stream, the request behind the next header stays inside the buffer iff the header announces
      0 to 512K bytes; a larger size is noticed, for closing the connection, only if it is less than 2^31. */
  lemma NextRequestInsideIff(hello: Bytes, ps: seq<Packet>, header: Bytes)
    requires WellFormedHello(hello) && |header| == 16 && forall i | 0 <= i < |ps| :: WellFormed(ps[i])
    ensures AsksInside(Feed(START, hello + Stream(ps)))
    ensures var m := Feed(START, hello + Stream(ps) + header);
            && (AsksInside(m) <==> Announced(header) <= 524288)
            && (m.disconnect <==> 524288 < Announced(header) < 0x8000_0000)
  {
    hide Feed, FrameOf, Stream, SizeField, Announced, Between, AsksInside, WellFormed;
    HelloAccepted(hello);
    FeedConcat(START, hello, Stream(ps));
    AllPackets(Feed(START, hello), hello, ps);
    FeedConcat(START, hello + Stream(ps), header);
    HeaderJudged(Feed(START, hello + Stream(ps)), hello, header);
  }

  /** Any header, between packets. */
  lemma HeaderJudged(m: Machine, hello: Bytes, header: Bytes)
    requires WellFormedHello(hello) && Between(m, hello) && |header| == 16
    ensures AsksInside(m)
    ensures var t := Feed(m, header);
            && (AsksInside(t) <==> Announced(header) <= 524288)
            && (t.disconnect <==> 524288 < Announced(header) < 0x8000_0000)
  {
    hide Feed, SizeField, Announced;
    SizeIsAnnounced(header);
    FeedWithinItem(m, header);
    assert m.held + header == header;
  }

  lemma {:induction false} AllPackets(m: Machine, hello: Bytes, ps: seq<Packet>)
    requires WellFormedHello(hello) && Between(m, hello) && forall i | 0 <= i < |ps| :: WellFormed(ps[i])
    ensures Between(Feed(m, Stream(ps)), hello)
    decreases |ps|
  {
    hide Act, FramesOf, SizeField;
    if ps != [] {
      hide Feed;
      var p := ps[0].header + ps[0].payload;
      FeedConcat(m, p, Stream(ps[1..]));
      PacketDelivered(m, hello, ps[0]);
      AllPackets(Feed(m, p), hello, ps[1..]);
    }
  }

  // ---- The receiving loop ----

  lemma {:induction false} FeedStopped(m: Machine, input: Bytes)
    requires !Waiting(m)
    ensures Feed(m, input) == m
  {
    if input != [] { FeedStopped(m, input[..|input| - 1]); }
  }

  class Camera {
    var state: nat
    var position: nat
    var size: int
    var ftype: bv8
    var hd: (nat, nat)
    var cif: (nat, nat)
    var disconnect: bool
    const buffer: array<bv8>
    var frames: seq<Frame>         // handed to OnVideoFrame

    ghost predicate Valid()
      reads this, buffer
    {
      buffer.Length == MAX_CAMERA_BUFFER && position <= buffer.Length
      && (Waiting(Model()) || (position == 0 && !(0 < size <= MAX_CAMERA_BUFFER)))
    }

    ghost function Model(): Machine
      requires position <= buffer.Length
      reads this, buffer
    {
      Machine(state, size, buffer[..position], ftype, hd, cif, disconnect, frames)
    }

    constructor ()
      ensures Valid() && Model() == START && fresh(buffer)
    {
      state, position, size, ftype := 0, 0, 16, 0xFF;
      hd, cif, disconnect, frames := (0, 0), (0, 0), false, [];
      buffer := new bv8[MAX_CAMERA_BUFFER](_ => 0);
    }

    /** One recv of at most size - position bytes into the buffer, and what a completed item leads to. */
    method Receive(chunk: Bytes)
      requires Valid() && Waiting(Model()) && 0 < |chunk| <= size - position
      modifies this, buffer
      ensures Valid() && Model() == Feed(old(Model()), chunk)
    {
      hide Feed, SizeField, Little16, Dimensions;
      ghost var m := Model();
      FeedWithinItem(m, chunk);
      Copy(buffer, position, chunk);
      position := position + |chunk|;
      assert Model() == m.(held := m.held + chunk);
      if position >= size {
        assert buffer[..position] == m.held + chunk;
        ghost var b := buffer[..position];
        position := 0;
        match state {
          case 0 =>
            if buffer[0] == 0x07 && buffer[1] == 0x61 {
              hd := (Little16(buffer[..16], 4), Little16(buffer[..16], 6));
              cif := (Little16(buffer[..16], 8), Little16(buffer[..16], 10));
              state := 1;
            } else {
              disconnect := true;
            }
          case 1 =>
            ftype := buffer[0];
            size := SizeField(buffer[..16]);
            if size <= MAX_CAMERA_BUFFER { state := 2; } else { disconnect := true; }
          case _ =>
            var (width, height) := Dimensions(ftype, hd, cif);
            frames := frames + [Frame(ftype, width, height, buffer[..size])];
            size := 16;
            state := 1;
        }
        assert buffer[..0] == [];
      }
    }

    /** Takes everything the socket has, in whatever pieces recv chooses to return. */
    method Drain(input: Bytes)
      requires Valid()
      modifies this, buffer
      ensures Valid() && Model() == Feed(old(Model()), input)
    {
      hide Feed, Act;
      var left := input;
      ghost var done := [];
      FeedEmpty(Model());
      while |left| > 0 && position < size <= MAX_CAMERA_BUFFER
        invariant Valid() && input == done + left
        invariant Model() == Feed(old(Model()), done)
        decreases |left|
      {
        var cnt :| 1 <= cnt <= |left| && cnt <= size - position;
        FeedConcat(old(Model()), done, left[..cnt]);
        Receive(left[..cnt]);
        done := done + left[..cnt];
        left := left[cnt..];
      }
      FeedConcat(old(Model()), done, left);
      if |left| == 0 {
        FeedEmpty(Model());
      } else {
        FeedStopped(Model(), left);
      }
    }
  }

  lemma FeedEmpty(m: Machine)
    ensures Feed(m, []) == m
  {
  }
}
