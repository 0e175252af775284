/** The block functions of SHA-256 and SHA-512: the compact loop, the two unrolled forms that rotate register
    names instead of values, and the i386 form that slides one array under three histories. Each is proved to
    compute section 6.2.2 / 6.4.2 of FIPS 180-4 on every block. */
module Sha2Blocks {
  import opened Sha2Spec
  import opened Sha2Macros

  /** The last sixteen schedule words sit at their index modulo 16. */
  ghost predicate Window(s: Suite, m: seq<Word>, X: seq<Word>, t: nat)
  {
    |m| == 16 && |X| == 16 && forall j: nat | j < t <= j + 16 :: X[j % 16] == Schedule(s, m, j)
  }

  lemma WindowAt(s: Suite, m: seq<Word>, X: seq<Word>, t: nat, j: nat)
    requires Window(s, m, X, t) && j < t <= j + 16
    ensures X[j % 16] == Schedule(s, m, j)
  {
  }

  lemma WindowStore(s: Suite, m: seq<Word>, X: seq<Word>, t: nat, w: Word)
    requires Window(s, m, X, t) && w == Schedule(s, m, t)
    ensures Window(s, m, X[t % 16 := w], t + 1)
  {
    hide Schedule;
    var X' := X[t % 16 := w];
    forall j: nat | j < t + 1 <= j + 16 ensures X'[j % 16] == Schedule(s, m, j) {
      if j < t {
        WindowAt(s, m, X, t, j);
        assert j % 16 != t % 16;
      }
    }
  }

  /** For the first sixteen rounds: takes the next word of the input and keeps it in the window. */
  method LoadWord(s: Suite, ghost m: seq<Word>, block: seq<bv8>, X: array<Word>, i: nat) returns (T: Word)
    requires i < 16 && |block| == BlockBytes(s) && m == Words(s, block) && Window(s, m, X[..], i)
    modifies X
    ensures Window(s, m, X[..], i + 1) && T == Schedule(s, m, i)
  {
    assert 0 <= i * WordBytes(s) <= (i + 1) * WordBytes(s) <= |block| by { Within(i, WordBytes(s)); }
    T := FromBytes(block[i * WordBytes(s)..(i + 1) * WordBytes(s)]);
    WindowStore(s, m, X[..], i, T);
    X[i] := T;
    assert X[..] == old(X[..])[i % 16 := T];
  }

  lemma Within(i: nat, n: nat)
    requires i < 16
    ensures 0 <= i * n <= (i + 1) * n <= 16 * n
  {
  }

  /** The circular window holds every operand of the next schedule word. */
  lemma ScheduleFromWindow(s: Suite, m: seq<Word>, X: seq<Word>, t: nat)
    requires |X| == 16 && |m| == 16 && 16 <= t && Window(s, m, X, t)
    ensures Schedule(s, m, t) ==
            Add(s, X[t % 16], Add(s, Add(s, Sig0(s, X[(t + 1) % 16]), Sig1(s, X[(t + 14) % 16])), X[(t + 9) % 16]))
  {
    hide Window, Add, Sig0, Sig1, Schedule;
    ScheduleStep(s, m, t);
    WindowBack(s, m, X, t, 15);
    WindowBack(s, m, X, t, 2);
    WindowBack(s, m, X, t, 7);
    WindowBack(s, m, X, t, 16);
    var q, v := X[(t + 9) % 16], X[t % 16];
    var p, u := Sig1(s, X[(t + 14) % 16]), Sig0(s, X[(t + 1) % 16]);
    ScheduleGroupings(s, p, q, u, v);
  }

  lemma WindowBack(s: Suite, m: seq<Word>, X: seq<Word>, t: nat, k: nat)
    requires |X| == 16 && |m| == 16 && 16 <= t && 1 <= k <= 16 && Window(s, m, X, t)
    ensures X[(t + 16 - k) % 16] == Schedule(s, m, t - k)
    ensures k == 16 ==> X[t % 16] == Schedule(s, m, t - 16)
  {
    hide Schedule;
    assert (t - k) % 16 == (t + 16 - k) % 16;
  }

  /** From round 16 on: computes the next schedule word from the window, over the word it needs no longer. */
  method ExpandWord(s: Suite, ghost m: seq<Word>, X: array<Word>, i: nat) returns (T: Word)
    requires 16 <= i && |m| == 16 && X.Length == 16 && Window(s, m, X[..], i)
    modifies X
    ensures Window(s, m, X[..], i + 1) && T == Schedule(s, m, i)
  {
    hide Window, Add, Sig0, Sig1, Schedule, MacroSig0, MacroSig1;
    ScheduleFromWindow(s, m, X[..], i);
    MacrosAreStandard(s, X[(i + 1) % 16]);
    MacrosAreStandard(s, X[(i + 14) % 16]);
    var s0 := X[(i + 1) % 16];
    s0 := MacroSig0(s, s0);
    var s1 := X[(i + 14) % 16];
    s1 := MacroSig1(s, s1);
    T := Add(s, X[i % 16], Add(s, Add(s, s0, s1), X[(i + 9) % 16]));
    WindowStore(s, m, X[..], i, T);
    X[i % 16] := T;
    assert X[..] == old(X[..])[i % 16 := T];
  }

  /** A round that leaves six registers where they are: the caller renames them instead of moving values. */
  method RotatedRound(s: Suite, i: nat, w: Word, a: Word, b: Word, c: Word, d: Word, e: Word, f: Word, g: Word, h: Word)
    returns (d': Word, h': Word)
    ensures Regs(h', a, b, c, d', e, f, g) == Round(s, Regs(a, b, c, d, e, f, g, h), K(s, i), w)
  {
    hide Add, Sum0, Sum1, Ch, Maj, K, MacroSum0, MacroSum1;
    MacrosAreStandard(s, a);
    MacrosAreStandard(s, e);
    var T := Add(s, w, Add(s, Add(s, Add(s, h, MacroSum1(s, e)), Ch(s, e, f, g)), K(s, i)));
    Commute(s, w, Add(s, Add(s, Add(s, h, Sum1(s, e)), Ch(s, e, f, g)), K(s, i)));
    h' := Add(s, MacroSum0(s, a), Maj(s, a, b, c));
    Commute(s, h', T);
    d' := Add(s, d, T);
    h' := Add(s, h', T);
  }

  /** After i rounds: X holds the window and r the registers. */
  ghost predicate After(s: Suite, m: seq<Word>, r0: Regs, X: array<Word>, i: nat, r: Regs)
    reads X
  {
    X.Length == 16 && |m| == 16 && Window(s, m, X[..], i) && r == Rounds(s, r0, m, i)
  }

  /** Round i < 16 of the unrolled forms, the registers passed under their current names. */
  method LoadRound(s: Suite, ghost m: seq<Word>, ghost r0: Regs, block: seq<bv8>, X: array<Word>, i: nat,
                            a: Word, b: Word, c: Word, d: Word, e: Word, f: Word, g: Word, h: Word)
    returns (d': Word, h': Word)
    requires i < 16 && |block| == BlockBytes(s) && m == Words(s, block)
    requires After(s, m, r0, X, i, Regs(a, b, c, d, e, f, g, h))
    modifies X
    ensures After(s, m, r0, X, i + 1, Regs(h', a, b, c, d', e, f, g))
  {
    hide Window, Words, Schedule, Round;
    var T := LoadWord(s, m, block, X, i);
    d', h' := RotatedRound(s, i, T, a, b, c, d, e, f, g, h);
  }

  /** Round i >= 16 of the unrolled forms. */
  method ExpandRound(s: Suite, ghost m: seq<Word>, ghost r0: Regs, X: array<Word>, i: nat,
                              a: Word, b: Word, c: Word, d: Word, e: Word, f: Word, g: Word, h: Word)
    returns (d': Word, h': Word)
    requires i >= 16
    requires After(s, m, r0, X, i, Regs(a, b, c, d, e, f, g, h))
    modifies X
    ensures After(s, m, r0, X, i + 1, Regs(h', a, b, c, d', e, f, g))
  {
    hide Window, Schedule, Round;
    var T := ExpandWord(s, m, X, i);
    d', h' := RotatedRound(s, i, T, a, b, c, d, e, f, g, h);
  }

  function RegsOf(h: seq<Word>): Regs
    requires |h| == 8
  {
    Regs(h[0], h[1], h[2], h[3], h[4], h[5], h[6], h[7])
  }

  /** Adds the working variables to the chaining value. */
  method AddInto(s: Suite, H: array<Word>, a: Word, b: Word, c: Word, d: Word, e: Word, f: Word, g: Word, h: Word)
    requires H.Length == 8
    modifies H
    ensures var r := old(RegsOf(H[..]));
            RegsOf(H[..]) == Regs(Add(s, r.a, a), Add(s, r.b, b), Add(s, r.c, c), Add(s, r.d, d),
                                  Add(s, r.e, e), Add(s, r.f, f), Add(s, r.g, g), Add(s, r.h, h))
  {
    H[0], H[1], H[2], H[3] := Add(s, H[0], a), Add(s, H[1], b), Add(s, H[2], c), Add(s, H[3], d);
    H[4], H[5], H[6], H[7] := Add(s, H[4], e), Add(s, H[5], f), Add(s, H[6], g), Add(s, H[7], h);
  }

  /** The rounds of the compact loop. */
  method CompactRounds(s: Suite, ghost m: seq<Word>, ghost r0: Regs, block: seq<bv8>, X: array<Word>, H: array<Word>)
    returns (a: Word, b: Word, c: Word, d: Word, e: Word, f: Word, g: Word, h: Word)
    requires |block| == BlockBytes(s) && m == Words(s, block) && X.Length == 16 && Window(s, m, X[..], 0)
    requires H.Length == 8 && H != X && r0 == RegsOf(H[..])
    modifies X
    ensures Regs(a, b, c, d, e, f, g, h) == Rounds(s, r0, m, RoundCount(s))
  {
    hide Window, Words, Schedule, Round;
    a, b, c, d := H[0], H[1], H[2], H[3];
    e, f, g, h := H[4], H[5], H[6], H[7];
    var i := 0;
    while i < 16
      invariant 0 <= i <= 16 && Window(s, m, X[..], i) && Regs(a, b, c, d, e, f, g, h) == Rounds(s, r0, m, i)
    {
      var T := LoadWord(s, m, block, X, i);
      a, b, c, d, e, f, g, h := ShiftedRound(s, i, T, a, b, c, d, e, f, g, h);
      i := i + 1;
    }
    while i < RoundCount(s)
      invariant 16 <= i <= RoundCount(s) && Window(s, m, X[..], i)
                && Regs(a, b, c, d, e, f, g, h) == Rounds(s, r0, m, i)
    {
      var T := ExpandWord(s, m, X, i);
      a, b, c, d, e, f, g, h := ShiftedRound(s, i, T, a, b, c, d, e, f, g, h);
      i := i + 1;
    }
  }

  /** One block by the compact loop. */
  method CompactBlock(s: Suite, H: array<Word>, block: seq<bv8>)
    requires H.Length == 8 && |block| == BlockBytes(s)
    modifies H
    ensures RegsOf(H[..]) == Compress(s, old(RegsOf(H[..])), Words(s, block))
  {
    hide After, Window, Words, Rounds;
    ghost var m, r0 := Words(s, block), RegsOf(H[..]);
    var X := NewWindow(s, m, H[0]);
    var a, b, c, d, e, f, g, h := CompactRounds(s, m, r0, block, X, H);
    AddInto(s, H, a, b, c, d, e, f, g, h);
  }

  /** The empty window: every cell of X may hold anything before its word arrives. */
  method NewWindow(s: Suite, ghost m: seq<Word>, filler: Word) returns (X: array<Word>)
    requires |m| == 16
    ensures fresh(X) && X.Length == 16 && Window(s, m, X[..], 0)
  {
    X := new Word[16](_ => filler);
  }

  /** The round of the compact loop, moving every register. */
  method ShiftedRound(s: Suite, i: nat, w: Word,
                        a0: Word, b0: Word, c0: Word, d0: Word, e0: Word, f0: Word, g0: Word, h0: Word)
    returns (a: Word, b: Word, c: Word, d: Word, e: Word, f: Word, g: Word, h: Word)
    ensures Regs(a, b, c, d, e, f, g, h) == Round(s, Regs(a0, b0, c0, d0, e0, f0, g0, h0), K(s, i), w)
  {
    hide Add, Sum0, Sum1, Ch, Maj, K, MacroSum0, MacroSum1;
    a, b, c, d, e, f, g, h := a0, b0, c0, d0, e0, f0, g0, h0;
    MacrosAreStandard(s, a);
    MacrosAreStandard(s, e);
    var T1 := Add(s, w, Add(s, Add(s, Add(s, h, MacroSum1(s, e)), Ch(s, e, f, g)), K(s, i)));
    Commute(s, w, Add(s, Add(s, Add(s, h, Sum1(s, e)), Ch(s, e, f, g)), K(s, i)));
    var T2 := Add(s, MacroSum0(s, a), Maj(s, a, b, c));
    h := g;
    g := f;
    f := e;
    e := Add(s, d, T1);
    d := c;
    c := b;
    b := a;
    a := Add(s, T1, T2);
  }

  lemma StartOfRounds(s: Suite, m: seq<Word>, r0: Regs, X: array<Word>)
    requires X.Length == 16 && |m| == 16 && Window(s, m, X[..], 0)
    ensures After(s, m, r0, X, 0, r0)
  {
  }

  lemma AfterAll(s: Suite, m: seq<Word>, r0: Regs, X: array<Word>, r: Regs)
    requires After(s, m, r0, X, RoundCount(s), r) && |m| == 16
    ensures r == Rounds(s, r0, m, RoundCount(s))
  {
  }

  /** The first sixteen rounds of the unrolled forms. */
  method UnrolledStart(s: Suite, ghost m: seq<Word>, ghost r0: Regs, block: seq<bv8>, X: array<Word>,
                       a0: Word, b0: Word, c0: Word, d0: Word, e0: Word, f0: Word, g0: Word, h0: Word)
    returns (a: Word, b: Word, c: Word, d: Word, e: Word, f: Word, g: Word, h: Word)
    requires |block| == BlockBytes(s) && m == Words(s, block)
    requires After(s, m, r0, X, 0, Regs(a0, b0, c0, d0, e0, f0, g0, h0))
    modifies X
    ensures After(s, m, r0, X, 16, Regs(a, b, c, d, e, f, g, h))
  {
    hide *;
    a, b, c, d, e, f, g, h := a0, b0, c0, d0, e0, f0, g0, h0;
    d, h := LoadRound(s, m, r0, block, X, 0, a, b, c, d, e, f, g, h);
    c, g := LoadRound(s, m, r0, block, X, 1, h, a, b, c, d, e, f, g);
    b, f := LoadRound(s, m, r0, block, X, 2, g, h, a, b, c, d, e, f);
    a, e := LoadRound(s, m, r0, block, X, 3, f, g, h, a, b, c, d, e);
    h, d := LoadRound(s, m, r0, block, X, 4, e, f, g, h, a, b, c, d);
    g, c := LoadRound(s, m, r0, block, X, 5, d, e, f, g, h, a, b, c);
    f, b := LoadRound(s, m, r0, block, X, 6, c, d, e, f, g, h, a, b);
    e, a := LoadRound(s, m, r0, block, X, 7, b, c, d, e, f, g, h, a);
    d, h := LoadRound(s, m, r0, block, X, 8, a, b, c, d, e, f, g, h);
    c, g := LoadRound(s, m, r0, block, X, 9, h, a, b, c, d, e, f, g);
    b, f := LoadRound(s, m, r0, block, X, 10, g, h, a, b, c, d, e, f);
    a, e := LoadRound(s, m, r0, block, X, 11, f, g, h, a, b, c, d, e);
    h, d := LoadRound(s, m, r0, block, X, 12, e, f, g, h, a, b, c, d);
    g, c := LoadRound(s, m, r0, block, X, 13, d, e, f, g, h, a, b, c);
    f, b := LoadRound(s, m, r0, block, X, 14, c, d, e, f, g, h, a, b);
    e, a := LoadRound(s, m, r0, block, X, 15, b, c, d, e, f, g, h, a);
  }

  /** The later rounds of SHA-256, unrolled by eight. */
  method UnrolledRounds256(s: Suite, ghost m: seq<Word>, ghost r0: Regs, X: array<Word>,
                                    a0: Word, b0: Word, c0: Word, d0: Word, e0: Word, f0: Word, g0: Word, h0: Word)
    returns (a: Word, b: Word, c: Word, d: Word, e: Word, f: Word, g: Word, h: Word)
    requires |m| == 16
    requires After(s, m, r0, X, 16, Regs(a0, b0, c0, d0, e0, f0, g0, h0))
    modifies X
    ensures Regs(a, b, c, d, e, f, g, h) == Rounds(s, r0, m, RoundCount(s))
  {
    hide After, Rounds;
    a, b, c, d, e, f, g, h := a0, b0, c0, d0, e0, f0, g0, h0;
    var i := 16;
    while i < RoundCount(s)
      invariant 16 <= i <= RoundCount(s) && i % 8 == 0
      invariant After(s, m, r0, X, i, Regs(a, b, c, d, e, f, g, h))
    {
      d, h := ExpandRound(s, m, r0, X, i, a, b, c, d, e, f, g, h);
      c, g := ExpandRound(s, m, r0, X, i + 1, h, a, b, c, d, e, f, g);
      b, f := ExpandRound(s, m, r0, X, i + 2, g, h, a, b, c, d, e, f);
      a, e := ExpandRound(s, m, r0, X, i + 3, f, g, h, a, b, c, d, e);
      h, d := ExpandRound(s, m, r0, X, i + 4, e, f, g, h, a, b, c, d);
      g, c := ExpandRound(s, m, r0, X, i + 5, d, e, f, g, h, a, b, c);
      f, b := ExpandRound(s, m, r0, X, i + 6, c, d, e, f, g, h, a, b);
      e, a := ExpandRound(s, m, r0, X, i + 7, b, c, d, e, f, g, h, a);
      i := i + 8;
    }
    AfterAll(s, m, r0, X, Regs(a, b, c, d, e, f, g, h));
  }

  /** One SHA-256 block by the unrolled form. */
  method UnrolledBlock256(s: Suite, H: array<Word>, block: seq<bv8>)
    requires H.Length == 8 && |block| == BlockBytes(s)
    modifies H
    ensures RegsOf(H[..]) == Compress(s, old(RegsOf(H[..])), Words(s, block))
  {
    hide After, Window, Words, Rounds;
    ghost var m, r0 := Words(s, block), RegsOf(H[..]);
    var X := NewWindow(s, m, H[0]);
    StartOfRounds(s, m, r0, X);
    var a, b, c, d := H[0], H[1], H[2], H[3];
    var e, f, g, h := H[4], H[5], H[6], H[7];
    a, b, c, d, e, f, g, h := UnrolledStart(s, m, r0, block, X, a, b, c, d, e, f, g, h);
    a, b, c, d, e, f, g, h := UnrolledRounds256(s, m, r0, X, a, b, c, d, e, f, g, h);
    AddInto(s, H, a, b, c, d, e, f, g, h);
  }

  /** The later rounds of SHA-512, unrolled by sixteen. */
  method UnrolledRounds512(s: Suite, ghost m: seq<Word>, ghost r0: Regs, X: array<Word>,
                                    a0: Word, b0: Word, c0: Word, d0: Word, e0: Word, f0: Word, g0: Word, h0: Word)
    returns (a: Word, b: Word, c: Word, d: Word, e: Word, f: Word, g: Word, h: Word)
    requires |m| == 16
    requires After(s, m, r0, X, 16, Regs(a0, b0, c0, d0, e0, f0, g0, h0))
    modifies X
    ensures Regs(a, b, c, d, e, f, g, h) == Rounds(s, r0, m, RoundCount(s))
  {
    hide After, Rounds;
    a, b, c, d, e, f, g, h := a0, b0, c0, d0, e0, f0, g0, h0;
    var i := 16;
    while i < RoundCount(s)
      invariant 16 <= i <= RoundCount(s) && i % 16 == 0
      invariant After(s, m, r0, X, i, Regs(a, b, c, d, e, f, g, h))
    {
      d, h := ExpandRound(s, m, r0, X, i, a, b, c, d, e, f, g, h);
      c, g := ExpandRound(s, m, r0, X, i + 1, h, a, b, c, d, e, f, g);
      b, f := ExpandRound(s, m, r0, X, i + 2, g, h, a, b, c, d, e, f);
      a, e := ExpandRound(s, m, r0, X, i + 3, f, g, h, a, b, c, d, e);
      h, d := ExpandRound(s, m, r0, X, i + 4, e, f, g, h, a, b, c, d);
      g, c := ExpandRound(s, m, r0, X, i + 5, d, e, f, g, h, a, b, c);
      f, b := ExpandRound(s, m, r0, X, i + 6, c, d, e, f, g, h, a, b);
      e, a := ExpandRound(s, m, r0, X, i + 7, b, c, d, e, f, g, h, a);
      d, h := ExpandRound(s, m, r0, X, i + 8, a, b, c, d, e, f, g, h);
      c, g := ExpandRound(s, m, r0, X, i + 9, h, a, b, c, d, e, f, g);
      b, f := ExpandRound(s, m, r0, X, i + 10, g, h, a, b, c, d, e, f);
      a, e := ExpandRound(s, m, r0, X, i + 11, f, g, h, a, b, c, d, e);
      h, d := ExpandRound(s, m, r0, X, i + 12, e, f, g, h, a, b, c, d);
      g, c := ExpandRound(s, m, r0, X, i + 13, d, e, f, g, h, a, b, c);
      f, b := ExpandRound(s, m, r0, X, i + 14, c, d, e, f, g, h, a, b);
      e, a := ExpandRound(s, m, r0, X, i + 15, b, c, d, e, f, g, h, a);
      i := i + 16;
    }
    AfterAll(s, m, r0, X, Regs(a, b, c, d, e, f, g, h));
  }

  /** One SHA-512 block by the unrolled form. */
  method UnrolledBlock512(s: Suite, H: array<Word>, block: seq<bv8>)
    requires H.Length == 8 && |block| == BlockBytes(s)
    modifies H
    ensures RegsOf(H[..]) == Compress(s, old(RegsOf(H[..])), Words(s, block))
  {
    hide After, Window, Words, Rounds;
    ghost var m, r0 := Words(s, block), RegsOf(H[..]);
    var X := NewWindow(s, m, H[0]);
    StartOfRounds(s, m, r0, X);
    var a, b, c, d := H[0], H[1], H[2], H[3];
    var e, f, g, h := H[4], H[5], H[6], H[7];
    a, b, c, d, e, f, g, h := UnrolledStart(s, m, r0, block, X, a, b, c, d, e, f, g, h);
    a, b, c, d, e, f, g, h := UnrolledRounds512(s, m, r0, X, a, b, c, d, e, f, g, h);
    AddInto(s, H, a, b, c, d, e, f, g, h);
  }

  /** The i386 form at round 80 - p: registers b, c, d and f, g, h lie in the cells above p, and every cell from
      p + 9 up holds the schedule word it was given, for good. */
  ghost predicate Slid(m: seq<Word>, r0: Regs, X: seq<Word>, p: nat, A: Word, E: Word)
  {
    && |m| == 16 && |X| == 89 && p <= 80
    && Regs(A, X[p + 1], X[p + 2], X[p + 3], E, X[p + 5], X[p + 6], X[p + 7]) == Rounds(Sha512, r0, m, 80 - p)
    && forall x | p + 9 <= x <= 88 :: X[x] == Schedule(Sha512, m, 88 - x)
  }

  /** The cells a round overwrites, F[0], F[4] and F[8], have been read for the last time. */
  function Slide(X: seq<Word>, p: nat, A: Word, E: Word, T: Word): (X': seq<Word>)
    requires |X| == 89 && p <= 80
    ensures |X'| == 89
  {
    X[p := A][p + 4 := E][p + 8 := T]
  }

  lemma SlideStep(m: seq<Word>, r0: Regs, X: seq<Word>, p: nat, A: Word, E: Word, T: Word, A': Word, E': Word)
    requires p > 0 && Slid(m, r0, X, p, A, E) && T == Schedule(Sha512, m, 80 - p)
    requires var r := Regs(A, X[p + 1], X[p + 2], X[p + 3], E, X[p + 5], X[p + 6], X[p + 7]);
             Regs(A', r.a, r.b, r.c, E', r.e, r.f, r.g) == Round(Sha512, r, K(Sha512, 80 - p), T)
    ensures Slid(m, r0, Slide(X, p, A, E, T), p - 1, A', E')
  {
    hide Round, Schedule, K;
  }

  /** The rest of an i386 round once its schedule word T is known. */
  method SlidingRound(ghost m: seq<Word>, ghost r0: Regs, X: array<Word>, F: nat, A: Word, E: Word, w: Word)
    returns (A': Word, E': Word)
    requires 0 < F <= 80 && Slid(m, r0, X[..], F, A, E) && w == Schedule(Sha512, m, 80 - F)
    modifies X
    ensures Slid(m, r0, X[..], F - 1, A', E')
  {
    hide Add, Sum0, Sum1, Ch, Maj, K, Schedule, Rounds;
    ghost var X0 := X[..];
    var T := w;
    X[F] := A;
    X[F + 4] := E;
    X[F + 8] := T;
    assert X[..] == Slide(X0, F, A, E, w);
    var k := K(Sha512, 80 - F);
    ghost var y := Add(Sha512, Add(Sha512, Add(Sha512, X[F + 7], Sum1(Sha512, E)),
                                   Ch(Sha512, E, X[F + 5], X[F + 6])), k);
    T := Add(Sha512, T, Add(Sha512, Add(Sha512, Add(Sha512, X[F + 7], Sum1(Sha512, E)),
                                        Ch(Sha512, E, X[F + 5], X[F + 6])), k));
    Commute(Sha512, w, y);
    E' := Add(Sha512, X[F + 3], T);
    A' := Add(Sha512, Add(Sha512, T, Sum0(Sha512, A)), Maj(Sha512, A, X[F + 1], X[F + 2]));
    Assoc(Sha512, T, Sum0(Sha512, A), Maj(Sha512, A, X[F + 1], X[F + 2]));
    SlideStep(m, r0, X0, F, A, E, w, A', E');
  }

  lemma SlidCell(m: seq<Word>, r0: Regs, X: seq<Word>, p: nat, A: Word, E: Word, x: nat)
    requires Slid(m, r0, X, p, A, E) && p + 9 <= x <= 88
    ensures X[x] == Schedule(Sha512, m, 88 - x)
  {
  }

  /** The i386 schedule word, read from the cells above. */
  method SlidingWord(ghost m: seq<Word>, ghost r0: Regs, X: array<Word>, F: nat, ghost A: Word, ghost E: Word)
    returns (T: Word)
    requires 0 < F <= 64 && Slid(m, r0, X[..], F, A, E)
    ensures T == Schedule(Sha512, m, 80 - F)
  {
    hide Add, Sig0, Sig1, Schedule, Rounds;
    ScheduleStep(Sha512, m, 80 - F);
    SlidCell(m, r0, X[..], F, A, E, F + 23);
    SlidCell(m, r0, X[..], F, A, E, F + 10);
    SlidCell(m, r0, X[..], F, A, E, F + 24);
    SlidCell(m, r0, X[..], F, A, E, F + 15);
    ScheduleGroupings(Sha512, Sig1(Sha512, X[F + 10]), X[F + 15], Sig0(Sha512, X[F + 23]), X[F + 24]);
    T := Sig0(Sha512, X[F + 8 + 16 - 1]);
    T := Add(Sha512, T, Sig1(Sha512, X[F + 8 + 16 - 14]));
    T := Add(Sha512, T, Add(Sha512, X[F + 8 + 16], X[F + 8 + 16 - 9]));
  }

  /** One SHA-512 block by the i386 form. */
  method SlidingBlock512(H: array<Word>, block: seq<bv8>)
    requires H.Length == 8 && |block| == BlockBytes(Sha512)
    modifies H
    ensures RegsOf(H[..]) == Compress(Sha512, old(RegsOf(H[..])), Words(Sha512, block))
  {
    hide Schedule, Rounds, Add, FromBytes, Slid, Words;
    ghost var m, r0 := Words(Sha512, block), RegsOf(H[..]);
    var X := new Word[89](_ => 0);
    var F := 80;
    var A, E := H[0], H[4];
    X[F + 1], X[F + 2], X[F + 3] := H[1], H[2], H[3];
    X[F + 5], X[F + 6], X[F + 7] := H[5], H[6], H[7];
    SlidStart(m, r0, X[..]);
    var i := 0;
    while i < 16
      modifies X
      invariant 0 <= i <= 16 && F == 80 - i && Slid(m, r0, X[..], F, A, E)
    {
      var T := FromBytes(block[i * 8..(i + 1) * 8]);
      assert T == Schedule(Sha512, m, i) by { ScheduleOfInput(block, i); }
      A, E := SlidingRound(m, r0, X, F, A, E, T);
      i, F := i + 1, F - 1;
    }
    while i < 80
      modifies X
      invariant 16 <= i <= 80 && F == 80 - i && Slid(m, r0, X[..], F, A, E)
    {
      var T := SlidingWord(m, r0, X, F, A, E);
      A, E := SlidingRound(m, r0, X, F, A, E, T);
      i, F := i + 1, F - 1;
    }
    SlidEnd(m, r0, X[..], A, E);
    AddInto(Sha512, H, A, X[F + 1], X[F + 2], X[F + 3], E, X[F + 5], X[F + 6], X[F + 7]);
  }

  lemma SlidStart(m: seq<Word>, r0: Regs, X: seq<Word>)
    requires |m| == 16 && |X| == 89
    requires r0 == Regs(r0.a, X[81], X[82], X[83], r0.e, X[85], X[86], X[87])
    ensures Slid(m, r0, X, 80, r0.a, r0.e)
  {
  }

  lemma SlidEnd(m: seq<Word>, r0: Regs, X: seq<Word>, A: Word, E: Word)
    requires Slid(m, r0, X, 0, A, E)
    ensures |m| == 16 && |X| == 89
    ensures Regs(A, X[1], X[2], X[3], E, X[5], X[6], X[7]) == Rounds(Sha512, r0, m, 80)
  {
  }

  lemma ScheduleOfInput(block: seq<bv8>, i: nat)
    requires i < 16 && |block| == BlockBytes(Sha512)
    ensures Schedule(Sha512, Words(Sha512, block), i) == FromBytes(block[i * 8..(i + 1) * 8])
  {
    hide FromBytes;
  }

  /** The builds of the two source files: OPENSSL_SMALL_FOOTPRINT, the default, and SHA-512 for i386. */
  datatype Build = SmallFootprint | Default | I386

  /** sha256_block_data_order / sha512_block_data_order: absorbs num blocks; every build does the same. */
  method BlockDataOrder(s: Suite, build: Build, H: array<Word>, data: seq<bv8>, num: nat)
    requires H.Length == 8 && num == Whole(s, data)
    modifies H
    ensures RegsOf(H[..]) == Absorb(s, old(RegsOf(H[..])), data)
  {
    hide Compress, Words;
    var rest, left := data, num;
    while left > 0
      invariant left == Whole(s, rest)
      invariant Absorb(s, RegsOf(H[..]), rest) == Absorb(s, old(RegsOf(H[..])), data)
    {
      var block := rest[..BlockBytes(s)];
      if build.SmallFootprint? {
        CompactBlock(s, H, block);
      } else if s.Sha512? && build.I386? {
        SlidingBlock512(H, block);
      } else if s.Sha512? {
        UnrolledBlock512(s, H, block);
      } else {
        UnrolledBlock256(s, H, block);
      }
      rest := rest[BlockBytes(s)..];
      left := left - 1;
    }
  }
}
