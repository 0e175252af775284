/** The serial packet protocol: two prefix bytes, a length byte, and that many bytes of which the last is an XOR
    checksum. */
module PacketProtocol {
  import Crc
  import opened Bytes

  const NEED_MORE := 0
  const PACKET_READY := 1
  const ERROR_GENERAL := -1
  const ERROR_CSUM := -2
  const ERROR_PSIZE := -3
  const ERROR_SIZE := -4
  const PREFIX_SIZE := 2

  /** XOR of all bytes, starting from extra. */
  function Csum(data: Bytes, extra: bv8): bv8 {
    if data == [] then extra else Crc.Xor8(Csum(data[..|data| - 1], extra), data[|data| - 1])
  }

  /** What create_packet sends for a payload. */
  function Encode(prefix: Bytes, payload: Bytes): Bytes
    requires |payload| < 255
  {
    var len := Byte(|payload| + 1);
    prefix + [len] + payload + [Csum([len] + payload, 0)]
  }

  /** Starting the sum at the length byte is summing it first. */
  lemma {:induction false} CsumFromLength(len: bv8, payload: Bytes)
    ensures Csum([len] + payload, 0) == Csum(payload, len)
  {
    hide Crc.Xor8;
    if payload == [] {
      Crc.Xor8Laws(0, len, 0);
      Crc.Xor8Laws(len, 0, 0);
      assert ([len] + payload)[..0] == [] && ([len] + payload)[0] == len;
    } else {
      var front := payload[..|payload| - 1];
      assert ([len] + payload)[..|payload|] == [len] + front;
      CsumFromLength(len, front);
    }
  }

  /** One of the eight bits of a byte. */
  ghost predicate OneBit(m: bv8) {
    m == 0x01 || m == 0x02 || m == 0x04 || m == 0x08 || m == 0x10 || m == 0x20 || m == 0x40 || m == 0x80
  }

  predicate HasBit(b: bv8, m: bv8) { Masked(b, m) != 0 }

  /** How many of the bytes have bit m. */
  function HavingBit(data: Bytes, m: bv8): nat {
    if data == [] then 0 else HavingBit(data[..|data| - 1], m) + if HasBit(data[|data| - 1], m) then 1 else 0
  }

  function Masked(x: bv8, m: bv8): bv8 { x & m }

  lemma XorMasked(x: bv8, y: bv8, m: bv8)
    ensures Masked(Crc.Xor8(x, y), m) == Crc.Xor8(Masked(x, m), Masked(y, m))
  {
  }

  lemma OneBitMasked(x: bv8, m: bv8)
    requires OneBit(m)
    ensures m != 0 && (Masked(x, m) == 0 || Masked(x, m) == m)
  {
  }

  lemma XorBit(x: bv8, y: bv8, m: bv8)
    requires OneBit(m)
    ensures HasBit(Crc.Xor8(x, y), m) <==> HasBit(x, m) != HasBit(y, m)
  {
    hide OneBit, Masked, Crc.Xor8;
    XorMasked(x, y, m);
    OneBitMasked(x, m);
    OneBitMasked(y, m);
    Crc.Xor8Laws(Masked(x, m), Masked(y, m), 0);
    Crc.Xor8Laws(Masked(y, m), 0, 0);
    Crc.Xor8Laws(0, 0, 0);
  }

  /** The sum has a bit iff an odd number of the bytes, extra included, have it. */
  lemma {:induction false} CsumIsParity(data: Bytes, extra: bv8, m: bv8)
    requires OneBit(m)
    ensures HasBit(Csum(data, extra), m) <==> (HavingBit(data, m) + if HasBit(extra, m) then 1 else 0) % 2 == 1
  {
    hide OneBit, HasBit, Crc.Xor8;
    if data != [] {
      CsumIsParity(data[..|data| - 1], extra, m);
      XorBit(Csum(data[..|data| - 1], extra), data[|data| - 1], m);
    }
  }

  lemma XorDiffers(c: bv8, d: bv8, b: bv8, e: bv8)
    ensures Crc.Xor8(c, b) == Crc.Xor8(d, e) ==> (c == d <==> b == e)
  {
    Crc.Xor8Undo(c, b);
    Crc.Xor8Undo(d, e);
    hide Crc.Xor8;
  }

  /** Changing one byte changes the sum. */
  lemma {:induction false} CsumDetects(data: Bytes, extra: bv8, i: nat, b: bv8)
    requires i < |data| && b != data[i]
    ensures Csum(data[i := b], extra) != Csum(data, extra)
  {
    hide Crc.Xor8;
    var n, last := data[i := b], |data| - 1;
    if i == last {
      assert n[..last] == data[..last];
    } else {
      assert n[..last] == data[..last][i := b];
      CsumDetects(data[..last], extra, i, b);
    }
    XorDiffers(Csum(n[..last], extra), Csum(data[..last], extra), n[last], data[last]);
  }

  /** The parser's variables: held is m_buffer[..m_buffer_pos]. */
  datatype Parser = Parser(state: nat, payload_size: bv8, held: Bytes)

  const RESET := Parser(0, 0, [])

  /** How many bytes the parser wants next, computed in a byte. */
  function Expected(p: Parser): int {
    if p.state <= PREFIX_SIZE then 1
    else if Num(p.payload_size) >= |p.held| then Num(p.payload_size) - |p.held|
    else Num(p.payload_size) - |p.held| + 256
  }

  /** post_data before its final reset. An oversized chunk is reported only where nothing later overrides the
      report: a chunk that completes a packet is judged by the checksum alone. */
  function Accept(p: Parser, prefix: Bytes, chunk: Bytes): (Parser, int)
    requires |prefix| == PREFIX_SIZE && 0 < |chunk|
  {
    var size_check := if |chunk| > Expected(p) then ERROR_SIZE else NEED_MORE;
    if p.state < PREFIX_SIZE then
      if chunk[0] == prefix[p.state] then (p.(state := p.state + 1), size_check) else (p, ERROR_GENERAL)
    else if p.state == PREFIX_SIZE then
      (p.(payload_size := chunk[0], state := p.state + 1), if Num(chunk[0]) == 0 then ERROR_PSIZE else size_check)
    else if p.state == PREFIX_SIZE + 1 then
      var q := p.(held := p.held + chunk);
      if |q.held| < Num(p.payload_size) || Num(p.payload_size) == 0 then (q, size_check)
      else if Csum(q.held[..Num(p.payload_size) - 1], p.payload_size) == q.held[Num(p.payload_size) - 1]
      then (q.(state := p.state + 1), PACKET_READY)
      else (q, ERROR_CSUM)
    else (p, ERROR_GENERAL)
  }

  function Post(p: Parser, prefix: Bytes, chunk: Bytes): (Parser, int)
    requires |prefix| == PREFIX_SIZE && 0 < |chunk|
  {
    var (q, result) := Accept(p, prefix, chunk);
    (if result < 0 then RESET else q, result)
  }

  // ---- What the bytes received since the last reset amount to ----

  /** The start of some packet. */
  ghost predicate Begun(prefix: Bytes, w: Bytes)
    requires |prefix| == PREFIX_SIZE
  {
    if |w| <= PREFIX_SIZE then w == prefix[..|w|] else w[..PREFIX_SIZE] == prefix && |w| - 3 < Num(w[2])
  }

  /** As long as a packet announces itself to be. */
  ghost predicate Complete(prefix: Bytes, w: Bytes) {
    |w| > 3 && w[..PREFIX_SIZE] == prefix && |w| - 3 == Num(w[2])
  }

  ghost predicate IsPacket(prefix: Bytes, w: Bytes) {
    Complete(prefix, w) && Csum(w[3..|w| - 1], w[2]) == w[|w| - 1]
  }

  function After(w: Bytes): Parser {
    if |w| <= PREFIX_SIZE then Parser(|w|, 0, []) else Parser(PREFIX_SIZE + 1, w[2], w[3..])
  }

  /** Whether the answer to a chunk, and the parser's new state, tell exactly what the bytes so far are. */
  ghost predicate Judged(prefix: Bytes, v: Bytes, p: Parser, result: int)
    requires |prefix| == PREFIX_SIZE
  {
    && (result == NEED_MORE <==> Begun(prefix, v))
    && (result == PACKET_READY <==> IsPacket(prefix, v))
    && (result == ERROR_CSUM <==> Complete(prefix, v) && !IsPacket(prefix, v))
    && (result == ERROR_GENERAL <==> 0 < |v| <= PREFIX_SIZE && v != prefix[..|v|])
    && (result == ERROR_PSIZE <==> |v| == PREFIX_SIZE + 1 && v[..PREFIX_SIZE] == prefix && Num(v[2]) == 0)
    && p == (if Begun(prefix, v) then After(v)
             else if IsPacket(prefix, v) then Parser(PREFIX_SIZE + 2, v[2], v[3..]) else RESET)
  }

  lemma ChunkJudged(prefix: Bytes, w: Bytes, chunk: Bytes)
    requires |prefix| == PREFIX_SIZE && Begun(prefix, w) && 0 < |chunk| <= Expected(After(w))
    ensures var (p, result) := Post(After(w), prefix, chunk); Judged(prefix, w + chunk, p, result)
  {
    hide Csum, Num;
    if |w| < PREFIX_SIZE {
      hide Judged, Post;
      PrefixJudged(prefix, w, chunk[0]);
      assert chunk == [chunk[0]];
    } else if |w| == PREFIX_SIZE {
      var v := w + chunk;
      assert v[..PREFIX_SIZE] == w && v[2] == chunk[0] && v[3..] == [];
    } else {
      hide Judged, Post;
      BodyJudged(prefix, w, chunk);
    }
  }

  /** The parser asks for a byte at a time up to the length byte, and then for all that is missing. */
  lemma ExpectedIsMissing(prefix: Bytes, w: Bytes)
    requires |prefix| == PREFIX_SIZE && Begun(prefix, w)
    ensures Expected(After(w)) == if |w| < 3 then 1 else Num(w[2]) - (|w| - 3)
    ensures |w| >= 3 ==> forall more: Bytes :: Complete(prefix, w + more) <==> |more| == Expected(After(w))
  {
    hide Num;
    if |w| >= 3 {
      forall more: Bytes ensures Complete(prefix, w + more) <==> |more| == Expected(After(w)) {
        assert (w + more)[..PREFIX_SIZE] == w[..PREFIX_SIZE] && (w + more)[2] == w[2];
      }
    }
  }

  /** Behind a packet any chunk is refused and leaves a reset parser, also one that begins the next packet. */
  lemma BehindPacket(p: Parser, prefix: Bytes, chunk: Bytes)
    requires |prefix| == PREFIX_SIZE && 0 < |chunk| && p.state == PREFIX_SIZE + 2
    ensures Post(p, prefix, chunk) == (RESET, ERROR_GENERAL)
  {
    hide Csum, Num;
  }

  lemma PrefixJudged(prefix: Bytes, w: Bytes, b: bv8)
    requires |prefix| == PREFIX_SIZE && |w| < PREFIX_SIZE && Begun(prefix, w)
    ensures var (p, result) := Post(After(w), prefix, [b]); Judged(prefix, w + [b], p, result)
  {
    OneMore(prefix, w, b);
  }

  lemma BodyJudged(prefix: Bytes, w: Bytes, chunk: Bytes)
    requires |prefix| == PREFIX_SIZE < |w| && Begun(prefix, w) && 0 < |chunk| <= Expected(After(w))
    ensures var (p, result) := Post(After(w), prefix, chunk); Judged(prefix, w + chunk, p, result)
  {
    hide Csum, Num;
    var v := w + chunk;
    assert v[..PREFIX_SIZE] == w[..PREFIX_SIZE] && v[2] == w[2] && v[3..] == w[3..] + chunk;
    assert v[3..|v| - 1] == v[3..][..|v| - 4];
  }

  lemma OneMore(prefix: Bytes, w: Bytes, b: bv8)
    requires |w| < |prefix| && w == prefix[..|w|]
    ensures w + [b] == prefix[..|w| + 1] <==> b == prefix[|w|]
  {
    assert prefix[..|w| + 1] == prefix[..|w|] + [prefix[|w|]];
    assert (w + [b])[|w|] == b;
  }

  // ---- Whole transmissions ----

  /** A reset parser after all the chunks, and its answer to the last one. */
  function Fed(prefix: Bytes, chunks: seq<Bytes>): (Parser, int)
    requires |prefix| == PREFIX_SIZE && forall c | c in chunks :: |c| > 0
  {
    if chunks == [] then (RESET, NEED_MORE)
    else Post(Fed(prefix, chunks[..|chunks| - 1]).0, prefix, chunks[|chunks| - 1])
  }

  /** No chunk is empty or larger than the parser expects at that point. */
  ghost predicate Sized(prefix: Bytes, chunks: seq<Bytes>)
    requires |prefix| == PREFIX_SIZE
  {
    && (forall c | c in chunks :: |c| > 0)
    && (chunks != [] ==> var front := chunks[..|chunks| - 1];
          Sized(prefix, front) && |chunks[|chunks| - 1]| <= Expected(Fed(prefix, front).0))
  }

  /** As long as the bytes before the last chunk start a packet, the answer to the last chunk is NEED_MORE exactly
      when all bytes so far still start one, and PACKET_READY exactly when they are one. */
  lemma {:induction false} TransmissionJudged(prefix: Bytes, chunks: seq<Bytes>)
    requires |prefix| == PREFIX_SIZE && chunks != [] && Sized(prefix, chunks)
    requires Begun(prefix, Flatten(chunks[..|chunks| - 1]))
    ensures var (p, result) := Fed(prefix, chunks); Judged(prefix, Flatten(chunks), p, result)
  {
    hide Csum, Num, Post, Expected;
    var front := chunks[..|chunks| - 1];
    if front != [] {
      var w := Flatten(front);
      assert w == Flatten(front[..|front| - 1]) + front[|front| - 1];
      BegunEarlier(prefix, Flatten(front[..|front| - 1]), front[|front| - 1]);
      TransmissionJudged(prefix, front);
    }
    ChunkJudged(prefix, Flatten(front), chunks[|chunks| - 1]);
  }

  lemma BegunEarlier(prefix: Bytes, w: Bytes, more: Bytes)
    requires |prefix| == PREFIX_SIZE && (Begun(prefix, w + more) || (Complete(prefix, w + more) && more != []))
    ensures Begun(prefix, w)
  {
    hide Num;
    var v := w + more;
    assert v[..|w|] == w;
    if |v| > PREFIX_SIZE {
      if |w| <= PREFIX_SIZE { assert w == v[..PREFIX_SIZE][..|w|]; }
      else { assert v[..PREFIX_SIZE] == w[..PREFIX_SIZE]; }
    } else {
      assert w == prefix[..|v|][..|w|] == prefix[..|w|];
    }
  }

  /** A complete transmission in any admissible chunks: NEED_MORE before the last, then PACKET_READY with the body
      held, or, when the sum is wrong, ERROR_CSUM and a reset parser. */
  lemma {:induction false} TransmissionDelivered(prefix: Bytes, chunks: seq<Bytes>, k: nat)
    requires |prefix| == PREFIX_SIZE && chunks != [] && Sized(prefix, chunks)
    requires Complete(prefix, Flatten(chunks)) && 0 < k <= |chunks|
    ensures forall c | c in chunks[..k] :: |c| > 0
    ensures var (p, result) := Fed(prefix, chunks[..k]); var w := Flatten(chunks);
            if k < |chunks| then result == NEED_MORE
            else if IsPacket(prefix, w) then result == PACKET_READY && p == Parser(PREFIX_SIZE + 2, w[2], w[3..])
            else result == ERROR_CSUM && p == RESET
  {
    hide Csum, Num, Post, Expected, IsPacket, Begun;
    assert chunks[..|chunks|] == chunks;
    ghost var front := chunks[..|chunks| - 1];
    BegunEarlier(prefix, Flatten(front), chunks[|chunks| - 1]);
    CompleteIsNotBegun(prefix, Flatten(chunks));
    TransmissionJudged(prefix, chunks);
    if k < |chunks| {
      assert chunks[..k] == front[..k];
      NeedMoreBefore(prefix, front, k);
    }
  }

  lemma CompleteIsNotBegun(prefix: Bytes, w: Bytes)
    requires |prefix| == PREFIX_SIZE && Complete(prefix, w)
    ensures !Begun(prefix, w)
  {
  }

  /** While all bytes start a packet, so do the bytes of fewer chunks, and the parser holds exactly those. */
  lemma {:induction false} NeedMoreBefore(prefix: Bytes, chunks: seq<Bytes>, k: nat)
    requires |prefix| == PREFIX_SIZE && Sized(prefix, chunks)
    requires Begun(prefix, Flatten(chunks)) && k <= |chunks|
    ensures Sized(prefix, chunks[..k])
    ensures Begun(prefix, Flatten(chunks[..k])) && Flatten(chunks[..k]) <= Flatten(chunks)
    ensures Fed(prefix, chunks[..k]) == (After(Flatten(chunks[..k])), NEED_MORE)
  {
    hide Csum, Num, Post, Expected, IsPacket, Begun;
    if k < |chunks| {
      ghost var front := chunks[..|chunks| - 1];
      BegunEarlier(prefix, Flatten(front), chunks[|chunks| - 1]);
      assert chunks[..k] == front[..k];
      NeedMoreBefore(prefix, front, k);
    } else {
      assert chunks[..k] == chunks;
      if chunks != [] {
        BegunEarlier(prefix, Flatten(chunks[..|chunks| - 1]), chunks[|chunks| - 1]);
        TransmissionJudged(prefix, chunks);
      }
    }
  }

  /** Before each chunk of a complete transmission there is room in a buffer that holds the announced length. */
  lemma RoomBefore(prefix: Bytes, chunks: seq<Bytes>, k: nat, room: nat)
    requires |prefix| == PREFIX_SIZE && Sized(prefix, chunks) && k < |chunks|
    requires Complete(prefix, Flatten(chunks)) && Num(Flatten(chunks)[2]) <= room
    ensures Sized(prefix, chunks[..k])
    ensures var p := Fed(prefix, chunks[..k]).0;
            && 0 < |chunks[k]| <= Expected(p) && |chunks[k]| < 256
            && (p.state == PREFIX_SIZE + 1 ==> |p.held| + |chunks[k]| <= room)
  {
    hide Csum, Num, Post, IsPacket, Begun;
    ghost var front, last := chunks[..|chunks| - 1], chunks[|chunks| - 1];
    BegunEarlier(prefix, Flatten(front), last);
    assert chunks[..k] == front[..k];
    NeedMoreBefore(prefix, front, k);
    var w := Flatten(chunks[..k]);
    assert w <= Flatten(chunks);
    SizedAt(prefix, chunks, k);
    BegunIsShort(prefix, w);
  }

  /** Chunk k would be copied beyond a buffer of room bytes. */
  ghost predicate Overruns(prefix: Bytes, chunks: seq<Bytes>, k: nat, room: nat)
    requires |prefix| == PREFIX_SIZE
  {
    k < |chunks| && Sized(prefix, chunks[..k]) &&
    var p := Fed(prefix, chunks[..k]).0;
    p.state == PREFIX_SIZE + 1 && |p.held| + |chunks[k]| > room
  }

  /** A complete transmission stays inside the buffer, in whatever admissible chunks, iff the announced length does. */
  lemma StaysInsideIff(prefix: Bytes, chunks: seq<Bytes>, room: nat)
    requires |prefix| == PREFIX_SIZE && Sized(prefix, chunks) && Complete(prefix, Flatten(chunks))
    ensures (forall k: nat :: !Overruns(prefix, chunks, k, room)) <==> Num(Flatten(chunks)[2]) <= room
  {
    hide Csum, Num, Post, IsPacket, Begun;
    if Num(Flatten(chunks)[2]) <= room {
      forall k: nat ensures !Overruns(prefix, chunks, k, room) {
        if k < |chunks| { RoomBefore(prefix, chunks, k, room); }
      }
    } else {
      var last := |chunks| - 1;
      var front, w := chunks[..last], Flatten(chunks[..last]);
      BegunEarlier(prefix, w, chunks[last]);
      assert front[..|front|] == front;
      NeedMoreBefore(prefix, front, |front|);
      SizedAt(prefix, chunks, last);
      assert Overruns(prefix, chunks, last, room);
    }
  }

  lemma BegunIsShort(prefix: Bytes, w: Bytes)
    requires |prefix| == PREFIX_SIZE && Begun(prefix, w)
    ensures |w| > PREFIX_SIZE ==> |w| - 3 < Num(w[2])
    ensures Expected(After(w)) < 256
  {
  }

  lemma {:induction false} SizedAt(prefix: Bytes, chunks: seq<Bytes>, k: nat)
    requires |prefix| == PREFIX_SIZE && Sized(prefix, chunks) && k < |chunks|
    ensures Sized(prefix, chunks[..k]) && 0 < |chunks[k]| <= Expected(Fed(prefix, chunks[..k]).0)
  {
    hide Expected, Post;
    if k < |chunks| - 1 {
      assert chunks[..|chunks| - 1][..k] == chunks[..k];
      SizedAt(prefix, chunks[..|chunks| - 1], k);
    }
  }

  // ---- What create_packet sends ----

  lemma Regrouped(a: Bytes, b: Bytes, c: Bytes)
    ensures a + b + c == a + (b + c)
  {
  }

  lemma SumIsLast(head: Bytes, payload: Bytes, c: bv8)
    requires |head| == 3
    ensures var w := head + (payload + [c]);
            |w| == |payload| + 4 && w[..2] == head[..2] && w[2] == head[2] && w[3..] == payload + [c]
            && w[3..|w| - 1] == payload && w[|w| - 1] == c
  {
  }

  /** What create_packet produces is a packet that carries the payload. */
  lemma EncodedIsPacket(prefix: Bytes, payload: Bytes)
    requires |prefix| == PREFIX_SIZE && |payload| < 255
    ensures var w := Encode(prefix, payload);
            |w| == |payload| + 4 && IsPacket(prefix, w) && Num(w[2]) == |payload| + 1 && w[3..][..|payload|] == payload
  {
    hide Csum, Byte, Num;
    var len := Byte(|payload| + 1);
    CsumFromLength(len, payload);
    ByteRoundTrip(|payload| + 1);
    ghost var c := Csum(payload, len);
    SumIsLast(prefix + [len], payload, c);
    Regrouped(prefix + [len], payload, [c]);
    HeadOf(prefix, len);
  }

  lemma HeadOf(prefix: Bytes, len: bv8)
    requires |prefix| == PREFIX_SIZE
    ensures (prefix + [len])[..2] == prefix && (prefix + [len])[2] == len
  {
  }

  /** One changed byte after the length byte leaves a complete transmission that is not a packet. */
  lemma CorruptionIsNoticed(prefix: Bytes, w: Bytes, i: nat, b: bv8)
    requires |prefix| == PREFIX_SIZE && IsPacket(prefix, w) && 3 <= i < |w| && b != w[i]
    ensures Complete(prefix, w[i := b]) && !IsPacket(prefix, w[i := b])
  {
    hide Csum, Num;
    var n, last := w[i := b], |w| - 1;
    assert n[..PREFIX_SIZE] == w[..PREFIX_SIZE];
    if i < last {
      assert n[3..last] == w[3..last][i - 3 := b];
      CsumDetects(w[3..last], w[2], i - 3, b);
    } else {
      assert n[3..last] == w[3..last];
    }
  }

  /** The payload that get_packet hands out. */
  function Payload(p: Parser): Bytes {
    if p.state == PREFIX_SIZE + 2 && 0 < Num(p.payload_size) <= |p.held| then p.held[..Num(p.payload_size) - 1] else []
  }

  /** Round trip: an encoded payload, cut in any admissible way, comes out of the parser unchanged. */
  lemma PacketRoundTrip(prefix: Bytes, payload: Bytes, chunks: seq<Bytes>)
    requires |prefix| == PREFIX_SIZE && |payload| < 255 && Sized(prefix, chunks)
    requires Flatten(chunks) == Encode(prefix, payload)
    ensures Fed(prefix, chunks).1 == PACKET_READY && Payload(Fed(prefix, chunks).0) == payload
  {
    hide Csum, Byte, Num, Encode, Post, Expected;
    EncodedIsPacket(prefix, payload);
    assert chunks[..|chunks|] == chunks;
    TransmissionDelivered(prefix, chunks, |chunks|);
  }

  lemma CommandLayout(prefix: Bytes, len: bv8, command: bv8, data: Bytes)
    requires |prefix| == PREFIX_SIZE
    ensures var w := prefix + [len] + [command] + data;
            w == prefix + [len] + ([command] + data) && w[2..] == [len] + ([command] + data)
  {
  }

  /** A packet with any one byte after the length byte changed ends in a checksum error and a reset parser. */
  lemma CorruptedPacketRejected(prefix: Bytes, payload: Bytes, i: nat, b: bv8, chunks: seq<Bytes>)
    requires |prefix| == PREFIX_SIZE && |payload| < 255 && Sized(prefix, chunks)
    requires 3 <= i < |Encode(prefix, payload)| && b != Encode(prefix, payload)[i]
    requires Flatten(chunks) == Encode(prefix, payload)[i := b]
    ensures Fed(prefix, chunks) == (RESET, ERROR_CSUM)
  {
    hide Csum, Byte, Num, Encode, Post, Expected;
    EncodedIsPacket(prefix, payload);
    CorruptionIsNoticed(prefix, Encode(prefix, payload), i, b);
    assert chunks[..|chunks|] == chunks;
    TransmissionDelivered(prefix, chunks, |chunks|);
  }

  /** Inside the body a chunk larger than expected is never reported: the answer and the payload are those of its
      first expected bytes. */
  lemma OversizedTailIgnored(prefix: Bytes, w: Bytes, chunk: Bytes)
    requires |prefix| == PREFIX_SIZE < |w| && Begun(prefix, w) && Expected(After(w)) < |chunk|
    ensures var (p, result) := Post(After(w), prefix, chunk);
            var (q, exact) := Post(After(w), prefix, chunk[..Expected(After(w))]);
            result == exact && result in {PACKET_READY, ERROR_CSUM} && Payload(p) == Payload(q)
  {
    hide Csum, Num;
    var n := Num(w[2]);
    var held, short := w[3..] + chunk, w[3..] + chunk[..Expected(After(w))];
    assert held[..n] == short;
    assert held[..n - 1] == short[..n - 1];
  }

  /** Exactly when a chunk larger than expected is reported: where a matching prefix byte or a nonzero length byte
      leaves the parser waiting for more. */
  lemma OversizeReportedIff(p: Parser, prefix: Bytes, chunk: Bytes)
    requires |prefix| == PREFIX_SIZE && 0 < |chunk|
    requires p.state == PREFIX_SIZE + 1 ==> |p.held| < Num(p.payload_size)
    ensures Post(p, prefix, chunk).1 == ERROR_SIZE <==>
            |chunk| > Expected(p)
            && ((p.state < PREFIX_SIZE && chunk[0] == prefix[p.state])
                || (p.state == PREFIX_SIZE && Num(chunk[0]) != 0))
  {
    hide Csum, Num;
  }

  /** A chunk larger than expected that is accepted: two bytes where the announced body is one. */
  lemma OversizeAccepted(prefix: Bytes, extra: bv8)
    requires |prefix| == PREFIX_SIZE
    ensures var p := After(prefix + [1]);
            Expected(p) == 1 && Post(p, prefix, [1, extra]).1 == PACKET_READY
  {
    assert (prefix + [1])[3..] == [] && (prefix + [1])[2] == 1;
    assert [] + [1, extra] == [1, extra];
  }

  /** The encoding, part by part. */
  lemma EncodeIs(prefix: Bytes, payload: Bytes, len: bv8, written: Bytes)
    requires |prefix| == PREFIX_SIZE && |payload| < 255 && len == Byte(|payload| + 1)
    requires written == prefix + [len] + payload && written[2..] == [len] + payload
    ensures Encode(prefix, payload) == written + [Csum(written[2..], 0)]
  {
    hide Csum, Byte;
  }

  lemma PlainLayout(prefix: Bytes, len: bv8, data: Bytes)
    requires |prefix| == PREFIX_SIZE
    ensures (prefix + [len] + data)[2..] == [len] + data
  {
  }

  lemma Inner(buffer: array<bv8>, from: nat, to: nat)
    requires from <= to <= buffer.Length
    ensures buffer[from..to] == buffer[..to][from..]
  {
  }

  class CommProtocolParser {
    const m_prefix: Bytes
    const m_max_cmd_size: nat
    const m_buffer: array<bv8>
    var m_buffer_pos: nat
    var m_state: nat
    var m_payload_size: bv8

    ghost predicate Valid()
      reads this
    {
      |m_prefix| == PREFIX_SIZE && m_buffer.Length == m_max_cmd_size < 256 && m_buffer_pos <= m_buffer.Length
      && m_state <= PREFIX_SIZE + 2 && (m_state <= PREFIX_SIZE ==> m_buffer_pos == 0)
      && (m_state == PREFIX_SIZE + 1 ==> m_buffer_pos < Num(m_payload_size))
      && (m_state == PREFIX_SIZE + 2 ==> 0 < Num(m_payload_size) <= m_buffer_pos)
    }

    ghost function Model(): Parser
      requires m_buffer_pos <= m_buffer.Length
      reads this, m_buffer
    {
      Parser(m_state, m_payload_size, m_buffer[..m_buffer_pos])
    }

    constructor (prefix: Bytes, max_cmd_size: nat)
      requires |prefix| == PREFIX_SIZE && max_cmd_size < 256
      ensures Valid() && Model() == RESET && m_prefix == prefix && m_max_cmd_size == max_cmd_size && fresh(m_buffer)
    {
      m_prefix, m_max_cmd_size := prefix, max_cmd_size;
      m_buffer_pos, m_state, m_payload_size := 0, 0, 0;
      m_buffer := new bv8[max_cmd_size](_ => 0);
    }

    method ResetParser()
      requires |m_prefix| == PREFIX_SIZE && m_buffer.Length == m_max_cmd_size < 256
      modifies this`m_buffer_pos, this`m_state, this`m_payload_size
      ensures Valid() && Model() == RESET
    {
      m_buffer_pos, m_state, m_payload_size := 0, 0, 0;
    }

    method GetExpectedDataSize() returns (size: int)
      requires Valid()
      ensures size == Expected(Model())
    {
      if m_state <= PREFIX_SIZE { return 1; }
      size := Num(m_payload_size) - m_buffer_pos;
      if size < 0 { size := size + 256; }
    }

    /** post_data: the announced packet must fit the buffer. */
    method PostData(data: Bytes) returns (result: int)
      requires Valid() && 0 < |data| < 256
      requires m_state == PREFIX_SIZE + 1 ==> m_buffer_pos + |data| <= m_max_cmd_size
      modifies this`m_buffer_pos, this`m_state, this`m_payload_size, m_buffer
      ensures Valid() && (Model(), result) == Post(old(Model()), m_prefix, data)
    {
      hide Csum, Num;
      ghost var p := Model();
      result := NEED_MORE;
      var expected := GetExpectedDataSize();
      if |data| > expected || m_buffer_pos > m_max_cmd_size {
        result := ERROR_SIZE;
      }
      if m_state < PREFIX_SIZE {
        if data[0] == m_prefix[m_state] {
          m_state := m_state + 1;
        } else {
          result := ERROR_GENERAL;
        }
      } else {
        match m_state {
          case 2 =>
            m_payload_size := data[0];
            m_state := m_state + 1;
            if Num(m_payload_size) == 0 { result := ERROR_PSIZE; }
          case 3 =>
            Copy(m_buffer, m_buffer_pos, data);
            m_buffer_pos := m_buffer_pos + |data|;
            assert m_buffer[..m_buffer_pos] == p.held + data;
            var size := Num(m_payload_size);
            if m_buffer_pos >= size {
              var sum := CsumOf(m_buffer, 0, size - 1, m_payload_size);
              assert m_buffer[0..0 + (size - 1)] == (p.held + data)[..size - 1];
              if sum == m_buffer[size - 1] {
                m_state := m_state + 1;
                result := PACKET_READY;
              } else {
                result := ERROR_CSUM;
              }
            }
          case _ =>
            result := ERROR_GENERAL;
        }
      }
      if result < 0 { ResetParser(); }
    }

    /** get_packet: the payload of a complete packet, if the caller has room for it. */
    method GetPacket(max_size: nat) returns (data: Bytes)
      requires Valid()
      ensures data == if max_size >= |Payload(Model())| && max_size > 0 then Payload(Model()) else []
    {
      var size := if m_state == PREFIX_SIZE + 2 then Num(m_payload_size) - 1 else 0;
      if max_size >= size && max_size > 0 {
        data := m_buffer[..size];
      } else {
        data := [];
      }
    }

    /** The prefix and the length byte. */
    method WriteHead(buffer: array<bv8>, len: bv8)
      requires |m_prefix| == PREFIX_SIZE && buffer.Length >= 3
      modifies buffer
      ensures buffer[..3] == m_prefix + [len]
      ensures forall j | 3 <= j < buffer.Length :: buffer[j] == old(buffer[j])
    {
      Copy(buffer, 0, m_prefix);
      Copy(buffer, 2, [len]);
    }

    /** create_packet for plain data: writes the packet, or nothing when the buffer is too small. */
    method CreatePacket(buffer: array<bv8>, max_size: nat, data: Bytes) returns (size: nat)
      requires Valid() && max_size <= buffer.Length && max_size < 256
      modifies buffer
      ensures size == if max_size >= |data| + 4 then |data| + 4 else 0
      ensures size > 0 ==> buffer[..size] == Encode(m_prefix, data)
      ensures buffer[size..] == old(buffer[size..])
    {
      hide Csum, Byte, Encode;
      if max_size < |data| + 4 { return 0; }
      var len := Byte(|data| + 1);
      WriteHead(buffer, len);
      Copy(buffer, 3, data);
      PlainLayout(m_prefix, len, data);
      EncodeIs(m_prefix, data, len, m_prefix + [len] + data);
      AppendSum(buffer, 3 + |data|, m_prefix + [len] + data);
      size := |data| + 4;
    }

    /** create_packet for a command and its data: the packet whose payload starts with the command. */
    method CreateCommand(buffer: array<bv8>, max_size: nat, command: bv8, data: Bytes) returns (size: nat)
      requires Valid() && max_size <= buffer.Length && max_size < 256
      modifies buffer
      ensures size == if max_size >= |data| + 5 then |data| + 5 else 0
      ensures size > 0 ==> buffer[..size] == Encode(m_prefix, [command] + data)
      ensures buffer[size..] == old(buffer[size..])
    {
      hide Csum, Byte, Encode;
      if max_size < |data| + 5 { return 0; }
      var len := Byte(|data| + 2);
      WriteHead(buffer, len);
      Copy(buffer, 3, [command]);
      Copy(buffer, 4, data);
      CommandLayout(m_prefix, len, command, data);
      EncodeIs(m_prefix, [command] + data, len, m_prefix + [len] + [command] + data);
      AppendSum(buffer, 4 + |data|, m_prefix + [len] + [command] + data);
      size := |data| + 5;
    }
  }

  /** Writes the checksum of everything behind the prefix. */
  method AppendSum(buffer: array<bv8>, size: nat, ghost written: Bytes)
    requires 2 <= size < buffer.Length && buffer[..size] == written
    modifies buffer
    ensures buffer[..size + 1] == written + [Csum(written[2..], 0)]
    ensures forall j | size < j < buffer.Length :: buffer[j] == old(buffer[j])
  {
    hide Csum;
    Inner(buffer, 2, size);
    var sum := CsumOf(buffer, PREFIX_SIZE, size - 2, 0);
    buffer[size] := sum;
    assert buffer[..size + 1] == written + [sum];
  }

  lemma EncodedParts(prefix: Bytes, payload: Bytes)
    requires |prefix| == PREFIX_SIZE && |payload| < 255
    ensures var w := Encode(prefix, payload); w != [] && Complete(prefix, w) && Num(w[2]) == |payload| + 1
  {
    hide Csum, Byte, Num, Encode;
    EncodedIsPacket(prefix, payload);
  }

  lemma AnswersTo(prefix: Bytes, payload: Bytes, chunks: seq<Bytes>, k: nat)
    requires |prefix| == PREFIX_SIZE && |payload| < 255 && Sized(prefix, chunks)
    requires Flatten(chunks) == Encode(prefix, payload) && 0 < k <= |chunks|
    ensures Sized(prefix, chunks[..k])
    ensures Fed(prefix, chunks[..k]).1 == if k == |chunks| then PACKET_READY else NEED_MORE
  {
    hide Csum, Byte, Num, Encode, Post, Expected;
    EncodedIsPacket(prefix, payload);
    TransmissionDelivered(prefix, chunks, k);
    if k < |chunks| { SizedAt(prefix, chunks, k); } else { assert chunks[..k] == chunks; }
  }

  /** A sender's packet, received in any admissible chunks by a parser whose buffer holds the announced length: more is
      needed up to the last chunk, and then the payload is handed out. */
  method ReceivePacket(parser: CommProtocolParser, ghost payload: Bytes, chunks: seq<Bytes>)
    returns (results: seq<int>, data: Bytes)
    requires parser.Valid() && parser.Model() == RESET && |payload| < parser.m_max_cmd_size
    requires Sized(parser.m_prefix, chunks) && Flatten(chunks) == Encode(parser.m_prefix, payload)
    modifies parser`m_buffer_pos, parser`m_state, parser`m_payload_size, parser.m_buffer
    ensures |results| == |chunks| > 0 && data == payload
    ensures forall k | 0 <= k < |results| :: results[k] == if k == |results| - 1 then PACKET_READY else NEED_MORE
  {
    hide Csum, Byte, Num, Encode, Post, Expected, Complete, IsPacket, Payload;
    ghost var prefix := parser.m_prefix;
    EncodedParts(prefix, payload);
    PacketRoundTrip(prefix, payload, chunks);
    results := [];
    for i := 0 to |chunks|
      invariant parser.Valid() && Sized(prefix, chunks[..i])
      invariant (forall c | c in chunks :: |c| > 0) && (forall c | c in chunks[..i] :: |c| > 0)
      invariant parser.Model() == Fed(prefix, chunks[..i]).0
      invariant |results| == i
      invariant forall k | 0 <= k < i :: results[k] == if k == |chunks| - 1 then PACKET_READY else NEED_MORE
    {
      RoomBefore(prefix, chunks, i, parser.m_max_cmd_size);
      assert chunks[..i + 1][..i] == chunks[..i];
      var result := parser.PostData(chunks[i]);
      AnswersTo(prefix, payload, chunks, i + 1);
      results := results + [result];
    }
    assert chunks[..|chunks|] == chunks;
    data := parser.GetPacket(255);
  }

  /** csum over part of an array. */
  method CsumOf(data: array<bv8>, at: nat, size: nat, extra: bv8) returns (result: bv8)
    requires at + size <= data.Length
    ensures result == Csum(data[at..at + size], extra)
  {
    hide Crc.Xor8;
    result := extra;
    for i := 0 to size
      invariant result == Csum(data[at..at + i], extra)
    {
      assert data[at..at + i + 1][..i] == data[at..at + i];
      result := Crc.Xor8(result, data[at + i]);
    }
  }
}
