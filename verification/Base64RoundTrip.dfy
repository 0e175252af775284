/** What base64 promises: decoding undoes encoding, and exactly the canonical texts are encodings. */
module Base64RoundTrip {
  import opened Base64
  import opened Bytes
  import opened Wrappers

  ghost predicate Clean(s: string) {
    forall k | 0 <= k < |s| :: !Foreign(s[k])
  }

  /** Symbols of the alphabet only. */
  ghost predicate Bare(s: string) {
    forall k | 0 <= k < |s| :: !Foreign(s[k]) && s[k] != PAD
  }

  lemma BareConcat(p: string, q: string)
    requires Bare(p) && Bare(q)
    ensures Bare(p + q)
  {
    hide Foreign;
  }

  /** t is s with any foreign bytes inserted at any places. */
  ghost predicate Scattered(t: string, s: string) {
    if t == [] then s == []
    else || (Foreign(t[|t| - 1]) && Scattered(t[..|t| - 1], s))
         || (s != [] && t[|t| - 1] == s[|s| - 1] && Scattered(t[..|t| - 1], s[..|s| - 1]))
  }

  lemma {:induction false} ScatteredIsKept(t: string, s: string)
    requires Clean(s) && Scattered(t, s)
    ensures Kept(t) == s
  {
    hide Foreign;
    if t != [] {
      var front := t[..|t| - 1];
      if Foreign(t[|t| - 1]) && Scattered(front, s) {
        ScatteredIsKept(front, s);
      } else {
        ScatteredIsKept(front, s[..|s| - 1]);
        assert s == s[..|s| - 1] + [s[|s| - 1]];
      }
    }
  }

  lemma {:induction false} CleanIsKept(s: string)
    requires Clean(s)
    ensures Kept(s) == s
  {
    hide Foreign;
    if s != [] {
      CleanIsKept(s[..|s| - 1]);
      assert s == s[..|s| - 1] + [s[|s| - 1]];
    }
  }

  lemma PadValue()
    ensures Value(PAD) == 0 && !Foreign(PAD)
  {
  }

  lemma QuadDecodes(a: bv8, b: bv8, c: bv8)
    ensures Triple(Quad(a, b, c)) == [a, b, c]
    ensures Bare(Quad(a, b, c))
  {
    hide First, Second, Third, Fourth, Join0, Join1, Join2, Value, Symbol, Num, Foreign;
    ValueOfSymbol(First(a));
    ValueOfSymbol(Second(a, b));
    ValueOfSymbol(Third(b, c));
    ValueOfSymbol(Fourth(c));
    JoinSplit(a, b, c);
  }

  lemma {:induction false} FullDecodes(x: Bytes)
    requires |x| % 3 == 0
    ensures Blocks(Full(x)) == x
    ensures Bare(Full(x))
  {
    hide Quad, Triple, Foreign, Blocks, Full, Bare;
    if x == [] {
      NothingDecodes();
    } else {
      var n := |x| - 3;
      var a, b, c := x[n], x[n + 1], x[n + 2];
      FullDecodes(x[..n]);
      QuadDecodes(a, b, c);
      QuadLength(a, b, c);
      BlocksGrow(Full(x[..n]), Quad(a, b, c));
      BareConcat(Full(x[..n]), Quad(a, b, c));
      assert x[..n + 3] == x == x[..n] + [a, b, c];
      FullGrows(x, n);
    }
  }

  lemma NothingDecodes()
    ensures Blocks([]) == [] && Full([]) == [] && Bare([])
  {
  }

  lemma QuadLength(a: bv8, b: bv8, c: bv8)
    ensures |Quad(a, b, c)| == 4
  {
  }

  /** The padded group decodes to the bytes left over and then bytes that padding discards. */
  lemma TailDecodes(rest: Bytes)
    requires 0 < |rest| < 3
    ensures var t := Tail(rest);
            |t| == 4 && Triple(t)[..|rest|] == rest && Padding(t) == 3 - |rest|
            && Clean(t) && t[0] != PAD && t[1] != PAD
    ensures |rest| == 1 ==> Tail(rest)[3] == PAD
  {
    hide First, Second, Third, Fourth, Join0, Join1, Join2, Value, Symbol, Num, Foreign;
    var a, b := rest[0], if |rest| == 1 then 0 else rest[1];
    ValueOfSymbol(First(a));
    ValueOfSymbol(Second(a, b));
    ValueOfSymbol(Third(b, 0));
    JoinSplit(a, b, 0);
    PadValue();
  }

  lemma WholeDecodes(x: Bytes)
    requires |x| % 3 == 0 && x != []
    ensures var s := Full(x); s != [] && |s| % 4 == 0 && Clean(s) && Unpadded(s) == x
  {
    hide Blocks, Full, Foreign;
    FullDecodes(x);
    assert x[..|x|] == x;
  }

  lemma TailedDecodes(whole: Bytes, rest: Bytes)
    requires |whole| % 3 == 0 && 0 < |rest| < 3
    ensures var s := Full(whole) + Tail(rest);
            |s| == |Full(whole)| + 4 && |s| % 4 == 0 && Clean(s) && Unpadded(s) == whole + rest
  {
    hide Blocks, Full, Tail, Triple, Foreign;
    FullDecodes(whole);
    TailDecodes(rest);
    BlocksGrow(Full(whole), Tail(rest));
    var s, t := Full(whole) + Tail(rest), Triple(Tail(rest));
    assert Padding(s) == Padding(Tail(rest));
    assert (whole + t)[..|whole| + |rest|] == whole + t[..|rest|];
  }

  /** Every group is complete, only the last may be padded, and decoding gives the bytes back. */
  lemma EncodeDecodes(x: Bytes)
    requires x != []
    ensures |Encode(x)| == (|x| + 2) / 3 * 4
    ensures var s := Encode(x); s != [] && |s| % 4 == 0 && Clean(s) && Unpadded(s) == x
  {
    hide Full, Tail, Encode, Clean, Unpadded;
    var n := |x| - |x| % 3;
    EncodeSplits(x, n);
    if n == |x| {
      assert x[..n] == x;
      WholeDecodes(x);
    } else {
      TailedDecodes(x[..n], x[n..]);
      assert x == x[..n] + x[n..];
    }
  }

  /** Round trip: any nonempty input survives encoding, the insertion of foreign bytes anywhere, and decoding. The
      empty input is the only exception: its text decodes to NULL. */
  lemma DecodeInvertsEncode(x: Bytes, t: string)
    requires Scattered(t, Encode(x))
    ensures Decode(t) == if x == [] then None else Some(x)
  {
    hide Blocks, Full, Tail, Padding, Encode, Kept, Scattered;
    if x == [] {
      EncodeNothing();
      ScatteredIsKept(t, []);
    } else {
      EncodeDecodes(x);
      ScatteredIsKept(t, Encode(x));
    }
  }

  lemma EncodeNothing()
    ensures Encode([]) == []
  {
    EmptyText();
    EncodeSplits([], 0);
  }

  /** The script wrapper passes on the terminating NUL as well; decoding skips it. */
  lemma WrapperRoundTrip(x: Bytes)
    requires x != []
    ensures Decode(Encode(x) + ['\0']) == Some(x)
  {
    hide Blocks, Full, Tail, Padding, Encode, Kept;
    NulIsForeign();
    var s := Encode(x);
    assert (s + ['\0'])[..|s|] == s;
    SameIsScattered(s);
    DecodeInvertsEncode(x, s + ['\0']);
  }

  lemma {:induction false} SameIsScattered(s: string)
    ensures Scattered(s, s)
  {
    if s != [] { SameIsScattered(s[..|s| - 1]); }
  }

  lemma NulIsForeign()
    ensures Foreign('\0')
  {
    hide Letter, Num;
    LetterOfEntry('\0', 64);
    if !Foreign('\0') { LetterCode(Num(Value('\0'))); }
  }

  // ---- Which texts are encodings ----

  /** Two clear lowest bits, as behind one padding character. */
  predicate Clear2(v: bv8) { v & 0x03 == 0 }

  /** Four clear lowest bits, as behind two. */
  predicate Clear4(v: bv8) { v & 0x0f == 0 }

  /** Only the last group may be padded, at its end, and the bits that padding discards are clear. */
  ghost predicate Canonical(s: string) {
    && s != [] && |s| % 4 == 0 && Clean(s)
    && (forall k | 0 <= k < |s| - 2 :: s[k] != PAD)
    && (s[|s| - 2] == PAD ==> s[|s| - 1] == PAD && Clear4(Value(s[|s| - 3])))
    && (s[|s| - 2] != PAD && s[|s| - 1] == PAD ==> Clear2(Value(s[|s| - 2])))
  }

  lemma PaddedBitsAreClear(a: bv8)
    ensures Clear4(Second(a, 0)) && Clear2(Third(a, 0))
  {
  }

  lemma TailIsCanonical(rest: Bytes)
    requires 0 < |rest| < 3
    ensures Canonical(Tail(rest))
  {
    hide First, Second, Third, Fourth, Value, Symbol, Num, Foreign, Clear2, Clear4;
    var a, b := rest[0], if |rest| == 1 then 0 else rest[1];
    ValueOfSymbol(First(a));
    ValueOfSymbol(Second(a, b));
    ValueOfSymbol(Third(b, 0));
    PaddedBitsAreClear(a);
    PaddedBitsAreClear(b);
    PadValue();
  }

  lemma EncodeIsCanonical(x: Bytes)
    requires x != []
    ensures Canonical(Encode(x))
  {
    hide Full, Tail, Foreign, Value, Clear2, Clear4, Encode, Clean;
    var n := |x| - |x| % 3;
    EncodeSplits(x, n);
    FullDecodes(x[..n]);
    EncodeDecodes(x);
    if n < |x| { TailIsCanonical(x[n..]); }
  }

  lemma TripleEncodes(q: string)
    requires |q| == 4 && Bare(q)
    ensures var x := Triple(q); Quad(x[0], x[1], x[2]) == q
  {
    hide First, Second, Third, Fourth, Join0, Join1, Join2, Value, Symbol, Num, Foreign;
    SymbolOfValue(q[0]);
    SymbolOfValue(q[1]);
    SymbolOfValue(q[2]);
    SymbolOfValue(q[3]);
    SplitJoin(Value(q[0]), Value(q[1]), Value(q[2]), Value(q[3]));
  }

  lemma {:induction false} BlocksEncode(s: string)
    requires |s| % 4 == 0 && Bare(s)
    ensures Full(Blocks(s)) == s
  {
    hide Foreign, Triple, Quad, Full, Blocks;
    if s == [] {
      NothingDecodes();
    } else {
      var front, q := s[..|s| - 4], s[|s| - 4..];
      BlocksEncode(front);
      TripleEncodes(q);
      TripleLength(q);
      BlocksGrow(front, q);
      assert s == front + q;
      var x, n := Blocks(s), |Blocks(front)|;
      assert x[..n] == Blocks(front) && x[..n + 3] == x;
      assert x[n] == Triple(q)[0] && x[n + 1] == Triple(q)[1] && x[n + 2] == Triple(q)[2];
      FullGrows(x, n);
    }
  }

  lemma TripleLength(q: string)
    requires |q| == 4
    ensures |Triple(q)| == 3
  {
  }

  lemma ClearedSplit(v0: bv8, v1: bv8, v2: bv8)
    requires Num(v0) < 64 && Num(v1) < 64 && Num(v2) < 64
    ensures Clear4(v1) ==> Second(Join0(v0, v1), 0) == v1
    ensures Clear2(v2) ==> Third(Join1(v1, v2), 0) == v2
  {
    NumFits(v0);
    NumFits(v1);
    NumFits(v2);
  }

  lemma OneByteEncodes(a: bv8, q: string)
    requires |q| == 4 && q[2] == PAD == q[3]
    requires q[0] == Symbol(First(a)) && q[1] == Symbol(Second(a, 0))
    ensures Tail([a]) == q
  {
    hide Symbol, First, Second, Num;
  }

  lemma TwoBytesEncode(a: bv8, b: bv8, q: string)
    requires |q| == 4 && q[3] == PAD
    requires q[0] == Symbol(First(a)) && q[1] == Symbol(Second(a, b)) && q[2] == Symbol(Third(b, 0))
    ensures Tail([a, b]) == q
  {
    hide Symbol, First, Second, Third, Num;
  }

  /** A padded group is the encoding of the bytes that its padding leaves. */
  lemma PaddedEncodes(q: string)
    requires |q| == 4 && Canonical(q) && q[3] == PAD
    ensures Tail(Triple(q)[..3 - Padding(q)]) == q
  {
    hide First, Second, Third, Fourth, Join0, Join1, Join2, Value, Symbol, Num, Foreign, Clear2, Clear4, Tail;
    SymbolOfValue(q[0]);
    SymbolOfValue(q[1]);
    PadIsZero();
    var v0, v1 := Value(q[0]), Value(q[1]);
    var x := Triple(q);
    if q[2] == PAD {
      ClearedSplit(v0, v1, 0);
      SplitJoin(v0, v1, 0, 0);
      assert x[..1] == [x[0]];
      OneByteEncodes(x[0], q);
    } else {
      SymbolOfValue(q[2]);
      var v2 := Value(q[2]);
      ClearedSplit(v0, v1, v2);
      SplitJoin(v0, v1, v2, 0);
      assert x[..2] == [x[0], x[1]];
      TwoBytesEncode(x[0], x[1], q);
    }
  }

  lemma PadIsZero()
    ensures Num(0) < 64
  {
  }

  /** Decoding and encoding a clean text gives it back exactly when it is canonical. */
  lemma EncodeInvertsDecode(s: string)
    requires Clean(s) && s != [] && |s| % 4 == 0
    ensures Decode(s).Some?
    ensures Encode(Decode(s).value) == s <==> Canonical(s)
  {
    hide Blocks, Full, Tail, Triple, Foreign, Clear2, Clear4, Value;
    CleanIsKept(s);
    var y := Decode(s).value;
    if Canonical(s) {
      CanonicalEncodes(s);
    } else if Encode(y) == s {
      if y == [] { EncodeNothing(); } else { EncodeIsCanonical(y); }
    }
  }

  lemma CanonicalEncodes(s: string)
    requires Canonical(s)
    ensures Encode(Unpadded(s)) == s
  {
    hide Blocks, Full, Tail, Triple, Foreign, Clear2, Clear4, Value, Encode;
    var n := |s| - 4;
    var front, q := s[..n], s[n..];
    var x := Blocks(s);
    var y := x[..|x| - Padding(s)];
    if s[|s| - 1] == PAD {
      BlocksEncode(front);
      BlocksGrow(front, q);
      assert s == front + q;
      PaddedEncodes(q);
      var f := |Blocks(front)|;
      assert y[..f] == Blocks(front) && y[f..] == Triple(q)[..3 - Padding(q)];
      EncodeSplits(y, f);
    } else {
      BlocksEncode(s);
      assert y == x && x[..|x|] == x;
      EncodeSplits(x, |x|);
    }
  }
}
