/** Incremental hashing: the buffering, the two-word bit counter and the padding of md32_common.h and sha512.c. */
module Sha2Stream {
  import opened Bytes
  import opened Arithmetic
  import opened Sha2Spec
  import opened Sha2Blocks

  /** The two-word counter after adding len bytes: low word, carry, and the bits shifted out of the low word. */
  function LowCount(m: nat, nl: nat, len: nat): nat
    requires m > 0
  {
    (nl + (8 * len) % m) % m
  }

  function HighCount(m: nat, nh: nat, nl: nat, len: nat): nat
    requires m >= 8
  {
    var nh' := if LowCount(m, nl, len) < nl then (nh + 1) % m else nh;
    (nh' + (len / (m / 8)) % m) % m
  }

  /** The counter is the bit length; wraps counts how often it overflowed. */
  ghost predicate Counts(m: nat, wraps: nat, nh: nat, nl: nat, bits: nat)
  {
    nh < m && nl < m && bits == (wraps * m + nh) * m + nl
  }

  /** Eight times len, cut at the word size: hi is what HASH_LONG(len >> 29) adds to the high word. */
  ghost predicate Shifted(m: nat, len: nat, hi: nat, lo: nat)
    requires m >= 8
  {
    8 * len == hi * m + lo && lo == (8 * len) % m && hi == len / (m / 8) && lo < m
  }

  lemma ShiftedOut(m: nat, c: nat, len: nat)
    requires m == 8 * c && c > 0
    ensures Shifted(m, len, len / c, (8 * len) % m)
  {
    var a, b := len / c, len % c;
    assert len == a * c + b;
    assert 8 * len == a * (8 * c) + 8 * b;
    DivModUnique(8 * len, m, a, 8 * b);
    assert m / 8 == c;
  }

  lemma CarryOut(m: nat, x: nat, y: nat)
    requires x < m && y < m
    ensures (x + y) % m == if x + y < m then x + y else x + y - m
    ensures (x + y) % m < x <==> x + y >= m
  {
    if x + y < m { DivModUnique(x + y, m, 0, x + y); } else { DivModUnique(x + y, m, 1, x + y - m); }
  }

  lemma Regroup(m: nat, w: nat, nh: nat, nl: nat, hi: nat, lo: nat, carry: nat, l: nat, k: nat, h: nat)
    requires nl + lo == carry * m + l && nh + carry + hi == k * m + h
    ensures (w * m + nh) * m + nl + (hi * m + lo) == ((w + k) * m + h) * m + l
  {
    assert (w * m + nh) * m + nl + (hi * m + lo) == (w * m + (nh + carry + hi)) * m + l;
    assert w * m + k * m == (w + k) * m;
  }

  lemma LowCountValue(m: nat, nl: nat, len: nat, hi: nat, lo: nat)
    requires m >= 8 && nl < m && Shifted(m, len, hi, lo)
    ensures var l := LowCount(m, nl, len);
            l < m && nl + lo == (if l < nl then m else 0) + l
  {
    CarryOut(m, nl, lo);
  }

  /** k is the quotient and h the remainder of x by m. */
  ghost predicate Quotient(m: nat, x: nat, k: nat, h: nat)
  {
    x == k * m + h && h < m
  }

  lemma HighCountUnfolds(m: nat, nh: nat, nl: nat, len: nat, hi: nat, carry: nat)
    requires m >= 8 && nh < m && carry == (if LowCount(m, nl, len) < nl then 1 else 0) && hi == len / (m / 8)
    ensures HighCount(m, nh, nl, len) == ((nh + carry) % m + hi % m) % m
  {
    hide LowCount;
    CarryOut(m, nh, carry);
  }

  /** The high word is the sum of the old one, the carry and the overflow of the shift, reduced once. */
  lemma HighCountValue(m: nat, nh: nat, nl: nat, len: nat, hi: nat, lo: nat, carry: nat) returns (k: nat)
    requires m >= 8 && nh < m && carry == (if LowCount(m, nl, len) < nl then 1 else 0) && Shifted(m, len, hi, lo)
    ensures Quotient(m, nh + carry + hi, k, HighCount(m, nh, nl, len))
  {
    HighCountUnfolds(m, nh, nl, len, hi, carry);
    k := QuotientOfSum(m, nh + carry, hi, HighCount(m, nh, nl, len));
  }

  lemma QuotientOfSum(m: nat, x: nat, y: nat, h: nat) returns (k: nat)
    requires m > 0 && h == (x % m + y % m) % m
    ensures Quotient(m, x + y, k, h)
  {
    var i := Divided(x, m);
    var j := Divided(y, m);
    var q := Divided(x % m + y % m, m);
    k := i + j + q;
    SumOfQuotients(m, x, y, i, x % m, j, y % m, q, h);
  }

  lemma Divided(x: nat, m: nat) returns (k: nat)
    requires m > 0
    ensures x == k * m + x % m && x % m < m
  {
    k := x / m;
  }

  lemma SumOfQuotients(m: nat, x: nat, y: nat, i: nat, a: nat, j: nat, b: nat, q: nat, h: nat)
    requires x == i * m + a && y == j * m + b && a + b == q * m + h
    ensures x + y == (i + j + q) * m + h
  {
  }

  lemma Advanced(m: nat, w: nat, nh: nat, nl: nat, total: nat, len: nat, hi: nat, lo: nat, carry: nat, l: nat, k: nat,
                 h: nat)
    requires m >= 8 && Counts(m, w, nh, nl, 8 * total) && Shifted(m, len, hi, lo) && l < m && carry <= 1
    requires nl + lo == (if carry == 1 then m else 0) + l && Quotient(m, nh + carry + hi, k, h)
    ensures Counts(m, w + k, h, l, 8 * (total + len))
  {
    assert nl + lo == carry * m + l;
    Regroup(m, w, nh, nl, hi, lo, carry, l, k, h);
  }

  /** Adding len bytes keeps the counter equal to the bit length. */
  lemma CounterAdvances(m: nat, c: nat, wraps: nat, nh: nat, nl: nat, total: nat, len: nat) returns (wraps': nat)
    requires m == 8 * c && c > 0 && Counts(m, wraps, nh, nl, 8 * total)
    ensures Counts(m, wraps', HighCount(m, nh, nl, len), LowCount(m, nl, len), 8 * (total + len))
  {
    var hi, lo := len / c, (8 * len) % m;
    ShiftedOut(m, c, len);
    wraps' := CounterAdvancesBy(m, wraps, nh, nl, total, len, hi, lo);
  }

  lemma CounterAdvancesBy(m: nat, wraps: nat, nh: nat, nl: nat, total: nat, len: nat, hi: nat, lo: nat)
    returns (wraps': nat)
    requires m >= 8 && Counts(m, wraps, nh, nl, 8 * total) && Shifted(m, len, hi, lo)
    ensures Counts(m, wraps', HighCount(m, nh, nl, len), LowCount(m, nl, len), 8 * (total + len))
  {
    assert nh < m && nl < m;
    hide *;
    var l := LowCount(m, nl, len);
    var carry := if l < nl then 1 else 0;
    LowCountValue(m, nl, len, hi, lo);
    var k := HighCountValue(m, nh, nl, len, hi, lo, carry);
    Advanced(m, wraps, nh, nl, total, len, hi, lo, carry, l, k, HighCount(m, nh, nl, len));
    wraps' := wraps + k;
  }

  /** The first block of buffered bytes r followed by d, and what follows it. */
  lemma FirstBlock(s: Suite, v: Regs, r: seq<bv8>, d: seq<bv8>)
    requires |r| < BlockBytes(s) <= |r| + |d|
    ensures var cut := BlockBytes(s) - |r|;
            && Whole(s, r + d[..cut]) == 1
            && Absorb(s, v, r + d) == Absorb(s, Absorb(s, v, r + d[..cut]), d[cut..])
            && Rest(s, r + d) == Rest(s, d[cut..])
  {
    hide Compress, Words;
    var n, cut := BlockBytes(s), BlockBytes(s) - |r|;
    assert (r + d)[..n] == r + d[..cut] && (r + d)[n..] == d[cut..];
    assert (r + d[..cut])[..n] == r + d[..cut] && (r + d[..cut])[n..] == [];
  }

  lemma NoBlock(s: Suite, v: Regs, d: seq<bv8>)
    requires |d| < BlockBytes(s)
    ensures Absorb(s, v, d) == v && Rest(s, d) == d && Whole(s, d) == 0
  {
  }

  /** memset of a stretch of the block buffer. */
  method Clear(buffer: array<bv8>, at: nat, count: nat)
    requires at + count <= buffer.Length
    modifies buffer
    ensures buffer[..] == old(buffer[..at]) + Zeros(count) + old(buffer[at + count..])
  {
    ghost var before := buffer[..];
    for i := 0 to count
      invariant forall j | 0 <= j < buffer.Length :: buffer[j] == if at <= j < at + i then 0 else before[j]
    {
      buffer[at + i] := 0;
    }
    assert buffer[..] == before[..at] + Zeros(count) + before[at + count..];
  }

  /** A SHA-256 digest length rounded down to whole words. */
  function WholeWords(md_len: nat): (n: nat)
    requires md_len <= 32
    ensures n <= 32
  {
    4 * (md_len / 4)
  }

  class HashContext {
    const s: Suite
    const build: Build
    const md_len: nat
    const h: array<Word>
    const data: array<bv8>
    var num: nat
    var Nl: nat
    var Nh: nat
    ghost const init: Regs
    ghost var message: seq<bv8>
    ghost var wraps: nat

    /** h is the chaining value of the message's whole blocks, the buffer holds the rest of it, and Nh:Nl is its
        length in bits. */
    ghost predicate Valid()
      reads this, h, data
    {
      && h.Length == 8 && data.Length == BlockBytes(s)
      && RegsOf(h[..]) == Absorb(s, init, message)
      && num < data.Length && data[..num] == Rest(s, message)
      && Counts(Modulus(s), wraps, Nh, Nl, 8 * |message|)
    }

    constructor (s: Suite, build: Build, init: Regs, md_len: nat)
      ensures Valid() && message == [] && this.init == init && this.s == s && this.md_len == md_len
      ensures fresh(h) && fresh(data)
    {
      this.s, this.build, this.md_len := s, build, md_len;
      this.init, message, wraps := init, [], 0;
      h := new Word[8](i requires 0 <= i < 8 =>
        if i == 0 then init.a else if i == 1 then init.b else if i == 2 then init.c else if i == 3 then init.d
        else if i == 4 then init.e else if i == 5 then init.f else if i == 6 then init.g else init.h);
      data := new bv8[16 * WordBytes(s)](_ => 0);
      num, Nl, Nh := 0, 0, 0;
    }

    /** Compresses the full block buffer. */
    method CompressBuffer(ghost r: seq<bv8>, ghost d: seq<bv8>)
      requires h.Length == 8 && data.Length == BlockBytes(s) && |r| < BlockBytes(s) <= |r| + |d|
      requires data[..] == r + d[..BlockBytes(s) - |r|]
      modifies h
      ensures Absorb(s, RegsOf(h[..]), d[BlockBytes(s) - |r|..]) == Absorb(s, old(RegsOf(h[..])), r + d)
      ensures Rest(s, r + d) == Rest(s, d[BlockBytes(s) - |r|..])
    {
      hide Absorb, Rest, Whole;
      FirstBlock(s, RegsOf(h[..]), r, d);
      BlockDataOrder(s, build, h, data[..], 1);
    }

    /** The part of an update behind the buffered bytes: whole blocks straight from the input, the tail to the
        buffer. */
    method AbsorbInput(input: seq<bv8>)
      requires h.Length == 8 && data.Length == BlockBytes(s) && num == 0
      modifies this`num, h, data
      ensures RegsOf(h[..]) == Absorb(s, old(RegsOf(h[..])), input)
      ensures num < data.Length && data[..num] == Rest(s, input)
    {
      hide Absorb, Rest, Whole;
      var d := input;
      var n := |d| / BlockBytes(s);
      WholeAndRest(s, d);
      if n > 0 {
        BlockDataOrder(s, build, h, d, n);
      } else {
        NoBlock(s, RegsOf(h[..]), d);
      }
      d := d[n * BlockBytes(s)..];
      if |d| != 0 {
        num := |d|;
        Copy(data, 0, d);
      }
    }

    /** The bit counter, the same in both files. */
    method Count(input: seq<bv8>)
      requires Counts(Modulus(s), wraps, Nh, Nl, 8 * |message|)
      modifies this`Nl, this`Nh, this`wraps
      ensures Counts(Modulus(s), wraps, Nh, Nl, 8 * (|message| + |input|))
    {
      assert Modulus(s) == 8 * (Modulus(s) / 8);
      hide Counts, Modulus;
      ghost var w := CounterAdvances(Modulus(s), Modulus(s) / 8, wraps, Nh, Nl, |message|, |input|);
      var len := |input|;
      var l := (Nl + (8 * len) % Modulus(s)) % Modulus(s);
      ghost var nh := HighCount(Modulus(s), Nh, Nl, len);
      if l < Nl { Nh := (Nh + 1) % Modulus(s); }
      Nh := (Nh + (len / (Modulus(s) / 8)) % Modulus(s)) % Modulus(s);
      Nl := l;
      wraps := w;
    }

    /** The context after its contents have been extended by input. */
    ghost predicate Fed(input: seq<bv8>, v: Regs, r: seq<bv8>)
      reads this, h, data
    {
      && h.Length == 8 && data.Length == BlockBytes(s) && num < data.Length
      && RegsOf(h[..]) == Absorb(s, v, r + input)
      && data[..num] == Rest(s, r + input)
    }

    /** Bytes that do not complete the buffered block are only stored. */
    method StoreTail(d: seq<bv8>)
      requires h.Length == 8 && data.Length == BlockBytes(s) && num + |d| < data.Length
      modifies this`num, data
      ensures Fed(d, RegsOf(h[..]), old(data[..num]))
    {
      NoBlock(s, RegsOf(h[..]), data[..num] + d);
      Copy(data, num, d);
      num := num + |d|;
    }

    /** Completes and compresses the buffered block. */
    method CompleteBlock(input: seq<bv8>) returns (d: seq<bv8>)
      requires h.Length == 8 && data.Length == BlockBytes(s) && num < data.Length <= num + |input|
      modifies this`num, h, data
      ensures num == 0 && |d| == |input| - (data.Length - old(num))
      ensures Absorb(s, RegsOf(h[..]), d) == Absorb(s, old(RegsOf(h[..])), old(data[..num]) + input)
      ensures Rest(s, d) == Rest(s, old(data[..num]) + input)
    {
      hide Absorb, Rest;
      ghost var r := data[..num];
      var cut := data.Length - num;
      Copy(data, num, input[..cut]);
      CompressBuffer(r, input);
      num := 0;
      d := input[cut..];
    }

    /** The data path of HASH_UPDATE. */
    method Md32Feed(input: seq<bv8>)
      requires h.Length == 8 && data.Length == BlockBytes(s) && num < data.Length
      modifies this`num, h, data
      ensures Fed(input, old(RegsOf(h[..])), old(data[..num]))
    {
      hide Absorb, Rest;
      var n, d := num, input;
      if n != 0 {
        if |d| >= data.Length || |d| + n >= data.Length {
          d := CompleteBlock(d);
          Clear(data, 0, data.Length);
        } else {
          StoreTail(d);
          return;
        }
      } else {
        assert data[..num] + input == input;
      }
      AbsorbInput(d);
    }

    /** The data path of SHA512_Update; data that is not word aligned is copied block by block through the buffer. */
    method Sha512Feed(input: seq<bv8>, aligned: bool)
      requires h.Length == 8 && data.Length == BlockBytes(s) && num < data.Length
      modifies this`num, h, data
      ensures Fed(input, old(RegsOf(h[..])), old(data[..num]))
    {
      hide Absorb, Rest;
      var d := input;
      if num != 0 {
        if |d| < data.Length - num {
          StoreTail(d);
          return;
        } else {
          d := CompleteBlock(d);
        }
      } else {
        assert data[..num] + input == input;
      }
      if !aligned {
        ghost var d0, v0 := d, RegsOf(h[..]);
        while |d| >= data.Length
          invariant num == 0
          invariant Absorb(s, RegsOf(h[..]), d) == Absorb(s, v0, d0) && Rest(s, d) == Rest(s, d0)
          decreases |d|
        {
          assert data[..num] + d == d;
          d := CompleteBlock(d);
        }
      }
      AbsorbInput(d);
    }

    /** HASH_UPDATE of md32_common.h, for any way of cutting the message. */
    method Md32Update(input: seq<bv8>)
      requires Valid() && s.Sha256?
      modifies this`num, this`Nl, this`Nh, this`message, this`wraps, h, data
      ensures Valid() && message == old(message) + input
    {
      hide Absorb, Rest, Counts;
      if |input| == 0 {
        assert message + input == message;
        return;
      }
      AbsorbConcat(s, init, message, input);
      Count(input);
      Md32Feed(input);
      message := message + input;
    }

    /** SHA512_Update. */
    method Sha512Update(input: seq<bv8>, aligned: bool)
      requires Valid() && s.Sha512?
      modifies this`num, this`Nl, this`Nh, this`message, this`wraps, h, data
      ensures Valid() && message == old(message) + input
    {
      hide Absorb, Rest, Counts;
      if |input| == 0 {
        assert message + input == message;
        return;
      }
      AbsorbConcat(s, init, message, input);
      Count(input);
      Sha512Feed(input, aligned);
      message := message + input;
    }

    /** Zeros up to the length field, then the counter, high word first. */
    method StoreLength(n: nat)
      requires data.Length == BlockBytes(s) && n <= data.Length - LengthBytes(s)
      modifies data
      ensures data[..] == old(data[..n]) + Zeros(data.Length - LengthBytes(s) - n)
                          + (ToBytes(Nh, WordBytes(s)) + ToBytes(Nl, WordBytes(s)))
    {
      hide ToBytes;
      var word := WordBytes(s);
      Clear(data, n, data.Length - 2 * word - n);
      Copy(data, data.Length - 2 * word, ToBytes(Nh, word));
      Copy(data, data.Length - word, ToBytes(Nl, word));
    }

    /** The 0x80 byte and, when the length field does not fit behind it, zeros to the end of the block. */
    method StoreMark() returns (n: nat)
      requires h.Length == 8 && data.Length == BlockBytes(s) && num < data.Length
      modifies h, data
      ensures var block, r := data.Length, old(data[..num]);
              if num + 1 <= block - LengthBytes(s)
              then n == num + 1 && data[..n] == r + [0x80] && h[..] == old(h[..])
              else n == 0 && RegsOf(h[..]) == Absorb(s, old(RegsOf(h[..])), r + ([0x80] + Zeros(block - num - 1)))
    {
      hide Absorb, Whole;
      data[num] := 0x80;
      n := num + 1;
      assert data[..n] == old(data[..num]) + [0x80];
      if n > data.Length - LengthBytes(s) {
        Clear(data, n, data.Length - n);
        n := 0;
        assert data[..] == old(data[..num]) + ([0x80] + Zeros(data.Length - num - 1));
        OneBlock(s, data[..]);
        BlockDataOrder(s, build, h, data[..], 1);
      }
    }

    /** The padding of section 5.1, written behind the buffered bytes, in one block or two. */
    method PadAndCompress()
      requires Valid()
      modifies h, data
      ensures h.Length == 8 && data.Length == BlockBytes(s)
      ensures RegsOf(h[..]) == Absorb(s, init, message + Padding(s, |message|))
    {
      hide Absorb, Rest, Whole, Counts, Padding, ToBytes, Zeros, FromBytes, Modulus, WordBytes, RegsOf;
      ghost var r, v := data[..num], RegsOf(h[..]);
      AbsorbConcat(s, init, message, Padding(s, |message|));
      WholeAndRest(s, message);
      var n := StoreMark();
      ghost var head, v' := data[..n], RegsOf(h[..]);
      StoreLength(n);
      PaddedBlock(s, v, r, |message|, wraps, Nh, Nl, n, head, v', data[..]);
      OneBlock(s, data[..]);
      BlockDataOrder(s, build, h, data[..], 1);
    }

    /** Stores the first n words of the chaining value, most significant byte first. */
    method StoreDigest(n: nat) returns (md: seq<bv8>)
      requires h.Length == 8 && n <= 8
      ensures WordBytes(s) * n <= 8 * WordBytes(s) && md == FlatRegs(s, RegsOf(h[..]))[..WordBytes(s) * n]
    {
      hide ToBytes, RegsOf, FlatRegs;
      md := [];
      for i := 0 to n
        invariant WordBytes(s) * i <= 8 * WordBytes(s) && md == FlatRegs(s, RegsOf(h[..]))[..WordBytes(s) * i]
      {
        NextDigestWord(s, h[..], i);
        md := md + ToBytes(h[i], WordBytes(s));
      }
    }

    /** HASH_FINAL of md32_common.h with the digest output of sha256.c. */
    method Md32Final() returns (md: seq<bv8>, ok: bool)
      requires Valid() && s.Sha256?
      modifies this`num, h, data
      ensures ok <==> md_len <= 32
      ensures ok ==> md == Hash(s, init, message, WholeWords(md_len))
    {
      hide Absorb, ToBytes, Rest, Counts, RegsOf, FlatRegs;
      PadAndCompress();
      num := 0;
      Clear(data, 0, data.Length);
      if md_len == 28 || md_len == 32 {
        md := StoreDigest(md_len / 4);
      } else {
        if md_len > 32 { return [], false; }
        md := StoreDigest(md_len / 4);
      }
      ok := true;
    }

    /** SHA512_Final; without an output buffer, or for an unknown digest length, it stores nothing. */
    method Sha512Final(wanted: bool) returns (md: seq<bv8>, ok: bool)
      requires Valid() && s.Sha512?
      modifies h, data
      ensures ok <==> wanted && (md_len == 48 || md_len == 64)
      ensures ok ==> md == Hash(s, init, message, md_len)
    {
      hide Absorb, ToBytes, Rest, Counts, RegsOf, FlatRegs;
      PadAndCompress();
      if !wanted { return [], false; }
      match md_len
      case 48 => md := StoreDigest(6); ok := true;
      case 64 => md := StoreDigest(8); ok := true;
      case _ => return [], false;
    }
  }

  /** Storing word n extends the stored digest by one word. */
  lemma NextDigestWord(s: Suite, hs: seq<Word>, n: nat)
    requires |hs| == 8 && n < 8
    ensures var k := WordBytes(s);
            k * n + k <= 8 * k &&
            FlatRegs(s, RegsOf(hs))[..k * n + k] == FlatRegs(s, RegsOf(hs))[..k * n] + ToBytes(hs[n], k)
  {
    hide ToBytes;
  }

  lemma OneBlock(s: Suite, b: seq<bv8>)
    requires |b| == BlockBytes(s)
    ensures Whole(s, b) == 1
  {
    NoBlock(s, Regs(0, 0, 0, 0, 0, 0, 0, 0), b[BlockBytes(s)..]);
  }

  lemma WordModulus(s: Suite)
    ensures Modulus(s) == Pow256(WordBytes(s))
  {
    assert Pow256(1) == 0x100 && Pow256(2) == 0x1_0000 && Pow256(3) == 0x100_0000 && Pow256(4) == 0x1_0000_0000;
    assert Pow256(5) == 0x100_0000_0000 && Pow256(6) == 0x1_0000_0000_0000 && Pow256(7) == 0x100_0000_0000_0000;
  }

  /** The counter words are the length field. */
  lemma LengthField(s: Suite, bits: nat, wraps: nat, nh: nat, nl: nat)
    requires Counts(Modulus(s), wraps, nh, nl, bits)
    ensures ToBytes(bits, LengthBytes(s)) == ToBytes(nh, WordBytes(s)) + ToBytes(nl, WordBytes(s))
  {
    var m, k := Modulus(s), WordBytes(s);
    WordModulus(s);
    hide Modulus, Pow256, ToBytes;
    ToBytesSplits(wraps * m + nh, nl, k, k);
    ToBytesModulo(wraps, nh, k);
  }

  /** Where the pieces of the padding fall in the one or two blocks they complete. */
  lemma PaddingSplits(s: Suite, length: nat, n: nat, wraps: nat, nh: nat, nl: nat)
    requires n == length % BlockBytes(s) && Counts(Modulus(s), wraps, nh, nl, 8 * length)
    ensures var t := Padding(s, length);
            var block, field := BlockBytes(s), LengthBytes(s);
            var words := ToBytes(nh, WordBytes(s)) + ToBytes(nl, WordBytes(s));
            if n + 1 <= block - field then t == [0x80] + Zeros(block - field - n - 1) + words
            else t[..block - n] == [0x80] + Zeros(block - n - 1) && t[block - n..] == Zeros(block - field) + words
                 && |t| == 2 * block - n
  {
    hide Counts, Modulus;
    LengthField(s, 8 * length, wraps, nh, nl);
    var block, field := BlockBytes(s), LengthBytes(s);
    if n + 1 > block - field {
      assert Zeros(PadZeros(s, length)) == Zeros(block - n - 1) + Zeros(block - field);
    }
  }

  /** The block or blocks that the buffered bytes r and the padding make up. */
  lemma FinalBlocks(s: Suite, v: Regs, r: seq<bv8>, length: nat, wraps: nat, nh: nat, nl: nat)
    requires |r| == length % BlockBytes(s) && Counts(Modulus(s), wraps, nh, nl, 8 * length)
    ensures var block, field := BlockBytes(s), LengthBytes(s);
            var words := ToBytes(nh, WordBytes(s)) + ToBytes(nl, WordBytes(s));
            if |r| + 1 <= block - field
            then r + Padding(s, length) == r + [0x80] + Zeros(block - field - (|r| + 1)) + words
            else Absorb(s, v, r + Padding(s, length))
                 == Absorb(s, Absorb(s, v, r + ([0x80] + Zeros(block - |r| - 1))), Zeros(block - field - 0) + words)
  {
    hide Absorb, Rest, Counts, Padding, ToBytes, Modulus, Zeros;
    PaddingSplits(s, length, |r|, wraps, nh, nl);
    if |r| + 1 > BlockBytes(s) - LengthBytes(s) {
      FirstBlock(s, v, r, Padding(s, length));
    }
  }

  /** The last block, written behind head: absorbing it ends where absorbing buffered bytes and padding does. */
  lemma PaddedBlock(s: Suite, v: Regs, r: seq<bv8>, length: nat, wraps: nat, nh: nat, nl: nat,
                    n: nat, head: seq<bv8>, v': Regs, last: seq<bv8>)
    requires |r| == length % BlockBytes(s) && Counts(Modulus(s), wraps, nh, nl, 8 * length)
    requires n <= BlockBytes(s) - LengthBytes(s)
    requires if |r| + 1 <= BlockBytes(s) - LengthBytes(s)
             then n == |r| + 1 && head == r + [0x80] && v' == v
             else n == 0 && head == [] && v' == Absorb(s, v, r + ([0x80] + Zeros(BlockBytes(s) - |r| - 1)))
    requires last == head + Zeros(BlockBytes(s) - LengthBytes(s) - n)
                     + (ToBytes(nh, WordBytes(s)) + ToBytes(nl, WordBytes(s)))
    ensures Absorb(s, v', last) == Absorb(s, v, r + Padding(s, length))
  {
    hide Absorb, Counts, Padding, ToBytes, Modulus, Zeros, WordBytes;
    FinalBlocks(s, v, r, length, wraps, nh, nl);
    if n == 0 {
      assert last == Zeros(BlockBytes(s) - LengthBytes(s) - 0)
                     + (ToBytes(nh, WordBytes(s)) + ToBytes(nl, WordBytes(s)));
    }
  }

  function Init224(): Regs {
    Regs(0xc1059ed8, 0x367cd507, 0x3070dd17, 0xf70e5939, 0xffc00b31, 0x68581511, 0x64f98fa7, 0xbefa4fa4)
  }

  function Init256(): Regs {
    Regs(0x6a09e667, 0xbb67ae85, 0x3c6ef372, 0xa54ff53a, 0x510e527f, 0x9b05688c, 0x1f83d9ab, 0x5be0cd19)
  }

  function Init384(): Regs {
    Regs(0xcbbb9d5dc1059ed8, 0x629a292a367cd507, 0x9159015a3070dd17, 0x152fecd8f70e5939,
         0x67332667ffc00b31, 0x8eb44a8768581511, 0xdb0c2e0d64f98fa7, 0x47b5481dbefa4fa4)
  }

  function Init512(): Regs {
    Regs(0x6a09e667f3bcc908, 0xbb67ae8584caa73b, 0x3c6ef372fe94f82b, 0xa54ff53a5f1d36f1,
         0x510e527fade682d1, 0x9b05688c2b3e6c1f, 0x1f83d9abfb41bd6b, 0x5be0cd19137e2179)
  }

  /** Init, one Update for each piece, Final: the FIPS 180-4 hash of the concatenation, however the message is cut
      and whichever build compresses the blocks. bits is 224 or 256. */
  method HashInPieces256(build: Build, bits: nat, pieces: seq<seq<bv8>>) returns (md: seq<bv8>, ok: bool)
    requires bits == 224 || bits == 256
    ensures ok && md == Hash(Sha256, if bits == 224 then Init224() else Init256(), Flatten(pieces), bits / 8)
  {
    hide Absorb, ToBytes, Rest, Counts, RegsOf, FlatRegs;
    var c := new HashContext(Sha256, build, if bits == 224 then Init224() else Init256(), bits / 8);
    for i := 0 to |pieces|
      invariant c.Valid() && c.message == Flatten(pieces[..i]) && fresh(c) && fresh(c.h) && fresh(c.data)
    {
      assert pieces[..i + 1][..i] == pieces[..i];
      c.Md32Update(pieces[i]);
    }
    assert pieces[..|pieces|] == pieces;
    md, ok := c.Md32Final();
  }

  /** The same for SHA-384 and SHA-512; aligned[i] says whether piece i starts on a word boundary. */
  method HashInPieces512(build: Build, bits: nat, pieces: seq<seq<bv8>>, aligned: seq<bool>)
    returns (md: seq<bv8>, ok: bool)
    requires (bits == 384 || bits == 512) && |aligned| == |pieces|
    ensures ok && md == Hash(Sha512, if bits == 384 then Init384() else Init512(), Flatten(pieces), bits / 8)
  {
    hide Absorb, ToBytes, Rest, Counts, RegsOf, FlatRegs;
    var c := new HashContext(Sha512, build, if bits == 384 then Init384() else Init512(), bits / 8);
    for i := 0 to |pieces|
      invariant c.Valid() && c.message == Flatten(pieces[..i]) && fresh(c) && fresh(c.h) && fresh(c.data)
    {
      assert pieces[..i + 1][..i] == pieces[..i];
      c.Sha512Update(pieces[i], aligned[i]);
    }
    assert pieces[..|pieces|] == pieces;
    md, ok := c.Sha512Final(true);
  }
}
