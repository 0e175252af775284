/** Encoding against its definition by bits in RFC 4648. */
module Base64Bits {
  import opened Base64
  import opened Base64RoundTrip
  import opened Bytes
  import Arithmetic

  function Mask(j: nat): bv8
    requires j < 8
  {
    match j
    case 0 => 0x80 case 1 => 0x40 case 2 => 0x20 case 3 => 0x10
    case 4 => 0x08 case 5 => 0x04 case 6 => 0x02 case 7 => 0x01
  }

  /** The j-th bit of a byte, most significant first. */
  predicate Bit(b: bv8, j: nat)
    requires j < 8
  {
    b & Mask(j) != 0
  }

  /** The n-th bit of a message, followed by zeros without end. */
  predicate MessageBit(x: Bytes, n: nat) {
    n / 8 < |x| && Bit(x[n / 8], n % 8)
  }

  lemma FirstBits(a: bv8, j: nat)
    requires 2 <= j < 8
    ensures Bit(First(a), j) == Bit(a, j - 2)
  {
  }

  lemma SecondBits(a: bv8, b: bv8, j: nat)
    requires 2 <= j < 8
    ensures Bit(Second(a, b), j) == if j < 4 then Bit(a, j + 4) else Bit(b, j - 4)
  {
  }

  lemma ThirdBits(b: bv8, c: bv8, j: nat)
    requires 2 <= j < 8
    ensures Bit(Third(b, c), j) == if j < 6 then Bit(b, j + 2) else Bit(c, j - 6)
  {
  }

  lemma FourthBits(c: bv8, j: nat)
    requires 2 <= j < 8
    ensures Bit(Fourth(c), j) == Bit(c, j)
  {
  }

  /** The n-th bit of a text, six per symbol. */
  predicate TextBit(s: string, n: nat)
    requires n / 6 < |s|
  {
    Bit(Value(s[n / 6]), n % 6 + 2)
  }

  lemma SymbolSpells(s: string, n: nat, v: bv8)
    requires n / 6 < |s| && Num(v) < 64 && s[n / 6] == Symbol(v)
    ensures TextBit(s, n) == Bit(v, n % 6 + 2)
  {
    hide Value, Symbol, Num, Bit;
    ValueOfSymbol(v);
  }

  lemma BitOfThree(a: bv8, b: bv8, c: bv8, n: nat)
    requires n < 24
    ensures MessageBit([a, b, c], n) == if n < 8 then Bit(a, n) else if n < 16 then Bit(b, n - 8) else Bit(c, n - 16)
  {
    hide Bit;
  }

  lemma QuadBits(a: bv8, b: bv8, c: bv8, n: nat)
    requires n < 24
    ensures TextBit(Quad(a, b, c), n) == MessageBit([a, b, c], n)
  {
    hide First, Second, Third, Fourth, Symbol, Num, Bit, TextBit, MessageBit;
    BitOfThree(a, b, c, n);
    var j, s := n % 6 + 2, Quad(a, b, c);
    if n < 6 {
      SymbolSpells(s, n, First(a));
      FirstBits(a, j);
    } else if n < 12 {
      SymbolSpells(s, n, Second(a, b));
      SecondBits(a, b, j);
    } else if n < 18 {
      SymbolSpells(s, n, Third(b, c));
      ThirdBits(b, c, j);
    } else {
      SymbolSpells(s, n, Fourth(c));
      FourthBits(c, j);
    }
  }

  /** More text and more message do not change bits that are already there. */
  lemma EarlierBits(s: string, q: string, x: Bytes, y: Bytes, n: nat)
    requires n / 6 < |s| && n / 8 < |x|
    ensures TextBit(s + q, n) == TextBit(s, n) && MessageBit(x + y, n) == MessageBit(x, n)
  {
    hide Value, Bit;
  }

  lemma {:induction false} FullBits(x: Bytes, n: nat)
    requires |x| % 3 == 0 && n < 8 * |x|
    ensures TextBit(Full(x), n) == MessageBit(x, n)
  {
    hide Quad, TextBit, MessageBit;
    var front, a, b, c := x[..|x| - 3], x[|x| - 3], x[|x| - 2], x[|x| - 1];
    QuadLength(a, b, c);
    assert x == front + [a, b, c];
    if n < 8 * |front| {
      FullBits(front, n);
      EarlierBits(Full(front), Quad(a, b, c), front, [a, b, c], n);
    } else {
      var t := n - 8 * |front|;
      QuadBits(a, b, c, t);
      ShiftedBits(Full(front), Quad(a, b, c), front, [a, b, c], t);
    }
  }

  /** Behind whole groups, positions in the text and in the message move together. */
  lemma ShiftedBits(s: string, q: string, x: Bytes, y: Bytes, t: nat)
    requires |x| % 3 == 0 && |s| == |x| / 3 * 4 && t / 6 < |q|
    ensures TextBit(s + q, 8 * |x| + t) == TextBit(q, t)
    ensures MessageBit(x + y, 8 * |x| + t) == MessageBit(y, t)
  {
    hide Value, Bit;
    var m := |x| / 3;
    Arithmetic.DivModUnique(8 * |x| + t, 6, 4 * m + t / 6, t % 6);
    Arithmetic.DivModUnique(8 * |x| + t, 8, |x| + t / 8, t % 8);
  }

  lemma TailBits(rest: Bytes, n: nat)
    requires 0 < |rest| < 3 && n < 24 && n / 6 <= |rest|
    ensures |Tail(rest)| == 4 && TextBit(Tail(rest), n) == MessageBit(rest, n)
  {
    hide First, Second, Third, Fourth, Value, Symbol, Num, Bit, Tail;
    var a, b := rest[0], if |rest| == 1 then 0 else rest[1];
    QuadBits(a, b, 0, n);
    TailIsQuad(rest, a, b);
    ZeroBits(n % 8);
  }

  lemma TailIsQuad(rest: Bytes, a: bv8, b: bv8)
    requires 0 < |rest| < 3 && a == rest[0] && b == if |rest| == 1 then 0 else rest[1]
    ensures |Tail(rest)| == 4 && Tail(rest)[..|rest| + 1] == Quad(a, b, 0)[..|rest| + 1]
  {
    hide First, Second, Third, Fourth, Symbol, Num;
  }

  lemma ZeroBits(j: nat)
    requires j < 8
    ensures !Bit(0, j)
  {
  }

  lemma TailPads(rest: Bytes, k: nat)
    requires 0 < |rest| < 3 && k < 4
    ensures |Tail(rest)| == 4 && (Tail(rest)[k] == PAD <==> k > |rest|)
  {
    hide Tail, Triple, Clean;
    TailDecodes(rest);
  }

  /** How many symbols spell len bytes. */
  function Symbols(len: nat): nat {
    (8 * len + 5) / 6
  }

  lemma SymbolCount(g: nat, r: nat)
    requires r < 3
    ensures Symbols(3 * g + r) == 4 * g + if r == 0 then 0 else r + 1
  {
  }

  /** The symbols behind whole groups. */
  lemma LastSymbols(whole: Bytes, rest: Bytes, t: nat)
    requires |whole| % 3 == 0 && 0 < |rest| < 3 && t / 6 < 4
    ensures |Full(whole) + Tail(rest)| == |Full(whole)| + 4
    ensures var s := Full(whole) + Tail(rest); var n := 8 * |whole| + t;
            && n / 6 == |Full(whole)| + t / 6
            && (s[n / 6] == PAD <==> t / 6 > |rest|)
            && (t / 6 <= |rest| ==> TextBit(s, n) == MessageBit(whole + rest, n))
  {
    hide Value, Bit, Full, Tail, Foreign;
    var g := |whole| / 3;
    TailPads(rest, t / 6);
    Arithmetic.DivModUnique(8 * |whole| + t, 6, 4 * g + t / 6, t % 6);
    if t / 6 <= |rest| {
      TailBits(rest, t);
      ShiftedBits(Full(whole), Tail(rest), whole, rest, t);
    }
  }

  /** RFC 4648: the text spells the message's bits, six per symbol, zero bits completing the last symbol, and padding
      completes the last group of four. */
  lemma EncodeSpellsBits(x: Bytes, n: nat)
    requires n / 6 < |Encode(x)|
    ensures Encode(x)[n / 6] == PAD <==> n / 6 >= Symbols(|x|)
    ensures n / 6 < Symbols(|x|) ==> TextBit(Encode(x), n) == MessageBit(x, n)
  {
    hide Value, Bit, Encode, Full, Tail, Foreign, Symbols;
    var g, r := |x| / 3, |x| % 3;
    var whole, rest := x[..3 * g], x[3 * g..];
    EncodeSplits(x, 3 * g);
    SymbolCount(g, r);
    FullDecodes(whole);
    if n < 24 * g {
      WholeSymbols(x, g, n);
    } else {
      assert r > 0;
      assert x == whole + rest;
      LastSymbolIsInGroup(whole, rest);
      LastSymbols(whole, rest, n - 24 * g);
    }
  }

  lemma LastSymbolIsInGroup(whole: Bytes, rest: Bytes)
    requires |whole| % 3 == 0 && 0 < |rest| < 3
    ensures |Full(whole)| == |whole| / 3 * 4 && |Tail(rest)| == 4
  {
    hide Tail, Full;
    TailPads(rest, 0);
  }

  lemma WithinGroups(g: nat, n: nat)
    requires n < 24 * g
    ensures n / 6 < 4 * g && n / 8 < 3 * g && 3 * g / 3 * 4 == 4 * g
  {
  }

  /** The symbols of whole groups. */
  lemma WholeSymbols(x: Bytes, g: nat, n: nat)
    requires g == |x| / 3 && n < 24 * g
    ensures |Encode(x)| >= 4 * g > n / 6 && Encode(x)[n / 6] != PAD
    ensures TextBit(Encode(x), n) == MessageBit(x, n)
  {
    hide Value, Bit, Encode, Full, Tail, Foreign, TextBit, MessageBit;
    WithinGroups(g, n);
    var whole, rest := x[..3 * g], x[3 * g..];
    EncodeSplits(x, 3 * g);
    FullDecodes(whole);
    FullBits(whole, n);
    assert x == whole + rest;
    EarlierBits(Full(whole), Tail(rest), whole, rest, n);
    assert Encode(x)[n / 6] == Full(whole)[n / 6];
  }
}
