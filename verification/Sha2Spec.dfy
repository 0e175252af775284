/** The SHA-2 hash computation of FIPS 180-4, for both word widths. */
module Sha2Spec {
  import opened Arithmetic
  import opened Sequences

  /** The two word widths of the family: 32-bit words and 64 rounds, or 64-bit words and 80 rounds. */
  datatype Suite = Sha256 | Sha512

  /** A machine word, as the number it holds; every operation below reduces modulo the word size. */
  type Word = nat

  function WordBytes(s: Suite): nat { if s.Sha256? then 4 else 8 }

  function RoundCount(s: Suite): nat { if s.Sha256? then 64 else 80 }

  function Modulus(s: Suite): (m: nat)
    ensures m > 0
  {
    if s.Sha256? then 0x1_0000_0000 else 0x1_0000_0000_0000_0000
  }

  function Add(s: Suite, x: Word, y: Word): Word { (x + y) % Modulus(s) }

  function To32(x: Word): bv32 { (x % 0x1_0000_0000) as bv32 }

  function To64(x: Word): bv64 { (x % 0x1_0000_0000_0000_0000) as bv64 }

  // Sections 3.2 and 4.1 of FIPS 180-4.

  function Or32(x: bv32, y: bv32): bv32 { x | y }

  function Xor32(x: bv32, y: bv32, z: bv32): bv32 { x ^ y ^ z }

  function Shr32(x: bv32, n: nat): bv32
    requires n <= 32
  {
    x >> n
  }

  function Shl32(x: bv32, n: nat): bv32
    requires n <= 32
  {
    x << n
  }

  function Rotr32(x: bv32, n: nat): bv32
    requires n <= 32
  {
    Or32(Shr32(x, n), Shl32(x, 32 - n))
  }

  function Rotr64(x: bv64, n: nat): bv64
    requires n <= 64
  {
    (x >> n) | (x << (64 - n))
  }

  function Sum0Bits(v: bv32): bv32 { Xor32(Rotr32(v, 2), Rotr32(v, 13), Rotr32(v, 22)) }

  function Sum1Bits(v: bv32): bv32 { Xor32(Rotr32(v, 6), Rotr32(v, 11), Rotr32(v, 25)) }

  function Sig0Bits(v: bv32): bv32 { Xor32(Rotr32(v, 7), Rotr32(v, 18), Shr32(v, 3)) }

  function Sig1Bits(v: bv32): bv32 { Xor32(Rotr32(v, 17), Rotr32(v, 19), Shr32(v, 10)) }

  function Xor64(x: bv64, y: bv64, z: bv64): bv64 { x ^ y ^ z }

  function Sum0Wide(v: bv64): bv64 { Xor64(Rotr64(v, 28), Rotr64(v, 34), Rotr64(v, 39)) }

  function Sum1Wide(v: bv64): bv64 { Xor64(Rotr64(v, 14), Rotr64(v, 18), Rotr64(v, 41)) }

  function Sig0Wide(v: bv64): bv64 { Xor64(Rotr64(v, 1), Rotr64(v, 8), v >> 7) }

  function Sig1Wide(v: bv64): bv64 { Xor64(Rotr64(v, 19), Rotr64(v, 61), v >> 6) }

  function Choose32(x: bv32, y: bv32, z: bv32): bv32 { (x & y) ^ (!x & z) }

  function Choose64(x: bv64, y: bv64, z: bv64): bv64 { (x & y) ^ (!x & z) }

  function Majority32(x: bv32, y: bv32, z: bv32): bv32 { (x & y) ^ (x & z) ^ (y & z) }

  function Majority64(x: bv64, y: bv64, z: bv64): bv64 { (x & y) ^ (x & z) ^ (y & z) }

  function Sum0(s: Suite, x: Word): Word {
    if s.Sha256? then Sum0Bits(To32(x)) as nat else Sum0Wide(To64(x)) as nat
  }

  function Sum1(s: Suite, x: Word): Word {
    if s.Sha256? then Sum1Bits(To32(x)) as nat else Sum1Wide(To64(x)) as nat
  }

  function Sig0(s: Suite, x: Word): Word {
    if s.Sha256? then Sig0Bits(To32(x)) as nat else Sig0Wide(To64(x)) as nat
  }

  function Sig1(s: Suite, x: Word): Word {
    if s.Sha256? then Sig1Bits(To32(x)) as nat else Sig1Wide(To64(x)) as nat
  }

  function Ch(s: Suite, x: Word, y: Word, z: Word): Word {
    if s.Sha256? then Choose32(To32(x), To32(y), To32(z)) as nat else Choose64(To64(x), To64(y), To64(z)) as nat
  }

  function Maj(s: Suite, x: Word, y: Word, z: Word): Word {
    if s.Sha256? then Majority32(To32(x), To32(y), To32(z)) as nat else Majority64(To64(x), To64(y), To64(z)) as nat
  }

  // Section 4.2, in rows of eight.

  const K256: seq<seq<Word>> := [
    [0x428a2f98, 0x71374491, 0xb5c0fbcf, 0xe9b5dba5, 0x3956c25b, 0x59f111f1, 0x923f82a4, 0xab1c5ed5],
    [0xd807aa98, 0x12835b01, 0x243185be, 0x550c7dc3, 0x72be5d74, 0x80deb1fe, 0x9bdc06a7, 0xc19bf174],
    [0xe49b69c1, 0xefbe4786, 0x0fc19dc6, 0x240ca1cc, 0x2de92c6f, 0x4a7484aa, 0x5cb0a9dc, 0x76f988da],
    [0x983e5152, 0xa831c66d, 0xb00327c8, 0xbf597fc7, 0xc6e00bf3, 0xd5a79147, 0x06ca6351, 0x14292967],
    [0x27b70a85, 0x2e1b2138, 0x4d2c6dfc, 0x53380d13, 0x650a7354, 0x766a0abb, 0x81c2c92e, 0x92722c85],
    [0xa2bfe8a1, 0xa81a664b, 0xc24b8b70, 0xc76c51a3, 0xd192e819, 0xd6990624, 0xf40e3585, 0x106aa070],
    [0x19a4c116, 0x1e376c08, 0x2748774c, 0x34b0bcb5, 0x391c0cb3, 0x4ed8aa4a, 0x5b9cca4f, 0x682e6ff3],
    [0x748f82ee, 0x78a5636f, 0x84c87814, 0x8cc70208, 0x90befffa, 0xa4506ceb, 0xbef9a3f7, 0xc67178f2]]

  const K512: seq<seq<Word>> := [
    [0x428a2f98d728ae22, 0x7137449123ef65cd, 0xb5c0fbcfec4d3b2f, 0xe9b5dba58189dbbc,
     0x3956c25bf348b538, 0x59f111f1b605d019, 0x923f82a4af194f9b, 0xab1c5ed5da6d8118],
    [0xd807aa98a3030242, 0x12835b0145706fbe, 0x243185be4ee4b28c, 0x550c7dc3d5ffb4e2,
     0x72be5d74f27b896f, 0x80deb1fe3b1696b1, 0x9bdc06a725c71235, 0xc19bf174cf692694],
    [0xe49b69c19ef14ad2, 0xefbe4786384f25e3, 0x0fc19dc68b8cd5b5, 0x240ca1cc77ac9c65,
     0x2de92c6f592b0275, 0x4a7484aa6ea6e483, 0x5cb0a9dcbd41fbd4, 0x76f988da831153b5],
    [0x983e5152ee66dfab, 0xa831c66d2db43210, 0xb00327c898fb213f, 0xbf597fc7beef0ee4,
     0xc6e00bf33da88fc2, 0xd5a79147930aa725, 0x06ca6351e003826f, 0x142929670a0e6e70],
    [0x27b70a8546d22ffc, 0x2e1b21385c26c926, 0x4d2c6dfc5ac42aed, 0x53380d139d95b3df,
     0x650a73548baf63de, 0x766a0abb3c77b2a8, 0x81c2c92e47edaee6, 0x92722c851482353b],
    [0xa2bfe8a14cf10364, 0xa81a664bbc423001, 0xc24b8b70d0f89791, 0xc76c51a30654be30,
     0xd192e819d6ef5218, 0xd69906245565a910, 0xf40e35855771202a, 0x106aa07032bbd1b8],
    [0x19a4c116b8d2d0c8, 0x1e376c085141ab53, 0x2748774cdf8eeb99, 0x34b0bcb5e19b48a8,
     0x391c0cb3c5c95a63, 0x4ed8aa4ae3418acb, 0x5b9cca4f7763e373, 0x682e6ff3d6b2b8a3],
    [0x748f82ee5defb2fc, 0x78a5636f43172f60, 0x84c87814a1f0ab72, 0x8cc702081a6439ec,
     0x90befffa23631e28, 0xa4506cebde82bde9, 0xbef9a3f7b2c67915, 0xc67178f2e372532b],
    [0xca273eceea26619c, 0xd186b8c721c0c207, 0xeada7dd6cde0eb1e, 0xf57d4f7fee6ed178,
     0x06f067aa72176fba, 0x0a637dc5a2c898a6, 0x113f9804bef90dae, 0x1b710b35131c471b],
    [0x28db77f523047d84, 0x32caab7b40c72493, 0x3c9ebe0a15c9bebc, 0x431d67c49c100d4c,
     0x4cc5d4becb3e42b6, 0x597f299cfc657e2a, 0x5fcb6fab3ad6faec, 0x6c44198c4a475817]]

  /** The round constants, section 4.2. */
  function K(s: Suite, t: nat): Word {
    if s.Sha256? && t < 64 then K256[t / 8][t % 8]
    else if s.Sha512? && t < 80 then K512[t / 8][t % 8]
    else 0
  }

  /** The number a byte string denotes, most significant byte first. */
  function FromBytes(b: seq<bv8>): nat {
    if b == [] then 0 else FromBytes(b[..|b| - 1]) * 256 + b[|b| - 1] as nat
  }

  function LowByte(n: nat): bv8 { (n % 256) as bv8 }

  /** The low k bytes of n, most significant first. */
  function ToBytes(n: nat, k: nat): (b: seq<bv8>)
    ensures |b| == k
  {
    if k == 0 then [] else ToBytes(n / 256, k - 1) + [LowByte(n)]
  }

  /** The eight working variables, also used for the chaining value. */
  datatype Regs = Regs(a: Word, b: Word, c: Word, d: Word, e: Word, f: Word, g: Word, h: Word)

  function BlockBytes(s: Suite): nat { 16 * WordBytes(s) }

  /** Section 6.2.2 step 1: word t of the message schedule of a 16-word block. */
  function Schedule(s: Suite, m: seq<Word>, t: nat): Word
    requires |m| == 16
  {
    if t < 16 then m[t]
    else Add(s, Add(s, Add(s, Sig1(s, Schedule(s, m, t - 2)), Schedule(s, m, t - 7)), Sig0(s, Schedule(s, m, t - 15))),
               Schedule(s, m, t - 16))
  }

  lemma ScheduleStep(s: Suite, m: seq<Word>, t: nat)
    requires |m| == 16 && t >= 16
    ensures Schedule(s, m, t) ==
            Add(s, Add(s, Add(s, Sig1(s, Schedule(s, m, t - 2)), Schedule(s, m, t - 7)),
                    Sig0(s, Schedule(s, m, t - 15))),
                Schedule(s, m, t - 16))
  {
    hide Add, Sig0, Sig1;
  }

  function T1(s: Suite, r: Regs, k: Word, w: Word): Word {
    Add(s, Add(s, Add(s, Add(s, r.h, Sum1(s, r.e)), Ch(s, r.e, r.f, r.g)), k), w)
  }

  function T2(s: Suite, r: Regs): Word {
    Add(s, Sum0(s, r.a), Maj(s, r.a, r.b, r.c))
  }

  /** Section 6.2.2 step 3: one round shifts the registers. */
  function Round(s: Suite, r: Regs, k: Word, w: Word): Regs {
    Regs(Add(s, T1(s, r, k, w), T2(s, r)), r.a, r.b, r.c, Add(s, r.d, T1(s, r, k, w)), r.e, r.f, r.g)
  }

  function Rounds(s: Suite, r: Regs, m: seq<Word>, n: nat): Regs
    requires |m| == 16
  {
    if n == 0 then r else Round(s, Rounds(s, r, m, n - 1), K(s, n - 1), Schedule(s, m, n - 1))
  }

  /** Section 6.2.2 step 4: the next chaining value. */
  function Compress(s: Suite, r: Regs, m: seq<Word>): Regs
    requires |m| == 16
  {
    var v := Rounds(s, r, m, RoundCount(s));
    Regs(Add(s, r.a, v.a), Add(s, r.b, v.b), Add(s, r.c, v.c), Add(s, r.d, v.d),
         Add(s, r.e, v.e), Add(s, r.f, v.f), Add(s, r.g, v.g), Add(s, r.h, v.h))
  }

  /** The 16 words of a block of bytes. */
  function Words(s: Suite, block: seq<bv8>): (m: seq<Word>)
    requires |block| == BlockBytes(s)
    ensures |m| == 16
  {
    seq(16, i requires 0 <= i < 16 => FromBytes(block[i * WordBytes(s)..(i + 1) * WordBytes(s)]))
  }

  /** The chaining value after all whole blocks of data. */
  function Absorb(s: Suite, r: Regs, data: seq<bv8>): Regs
    decreases |data|
  {
    var n := BlockBytes(s);
    if n == 0 || |data| < n then r
    else Absorb(s, Compress(s, r, Words(s, data[..n])), data[n..])
  }

  /** The number of whole blocks in data. */
  function Whole(s: Suite, data: seq<bv8>): nat
    decreases |data|
  {
    var n := BlockBytes(s);
    if n == 0 || |data| < n then 0 else 1 + Whole(s, data[n..])
  }

  /** The bytes left over after the whole blocks. */
  function Rest(s: Suite, data: seq<bv8>): (rest: seq<bv8>)
    requires BlockBytes(s) > 0
    ensures |rest| < BlockBytes(s)
    decreases |data|
  {
    var n := BlockBytes(s);
    if |data| < n then data else Rest(s, data[n..])
  }

  /** Absorbing in pieces: the whole blocks of x, then what is left of x in front of y. */
  lemma {:induction false} AbsorbConcat(s: Suite, r: Regs, x: seq<bv8>, y: seq<bv8>)
    requires BlockBytes(s) > 0
    ensures Absorb(s, r, x + y) == Absorb(s, Absorb(s, r, x), Rest(s, x) + y)
    ensures Rest(s, x + y) == Rest(s, Rest(s, x) + y)
    decreases |x|
  {
    var n := BlockBytes(s);
    if |x| >= n {
      assert (x + y)[..n] == x[..n] && (x + y)[n..] == x[n..] + y;
      AbsorbConcat(s, Compress(s, r, Words(s, x[..n])), x[n..], y);
    }
  }

  // ---- Instances of the addition laws ----

  /** Whole and Rest are the quotient and remainder of cutting data into blocks. */
  lemma {:induction false} WholeAndRest(s: Suite, data: seq<bv8>)
    ensures Whole(s, data) == |data| / BlockBytes(s)
    ensures |Rest(s, data)| == |data| % BlockBytes(s)
    ensures Rest(s, data) == data[|data| - |Rest(s, data)|..]
    decreases |data|
  {
    var n := BlockBytes(s);
    if |data| >= n {
      WholeAndRest(s, data[n..]);
      assert |data[n..]| == |data| - n;
      if s.Sha256? { assert |data| / 64 == 1 + (|data| - 64) / 64; }
      else { assert |data| / 128 == 1 + (|data| - 128) / 128; }
    }
  }

  // ---- Section 5.1: padding; section 6: the digest ----

  /** The message length field takes two words. */
  function LengthBytes(s: Suite): nat { 2 * WordBytes(s) }

  function Zeros(n: nat): (z: seq<bv8>)
    ensures |z| == n
  {
    Repeat(n, 0)
  }

  /** The number of zero bytes of the padding, for a message whose last block holds n bytes. */
  function PadZeros(s: Suite, length: nat): nat {
    var n := length % BlockBytes(s);
    if n + 1 + LengthBytes(s) <= BlockBytes(s) then BlockBytes(s) - LengthBytes(s) - n - 1
    else 2 * BlockBytes(s) - LengthBytes(s) - n - 1
  }

  /** Section 5.1: a 1 bit, zeros, and the bit length of the message (modulo the size of its field). */
  function Padding(s: Suite, length: nat): seq<bv8> {
    [0x80] + Zeros(PadZeros(s, length)) + ToBytes(8 * length, LengthBytes(s))
  }

  function FlatRegs(s: Suite, r: Regs): (b: seq<bv8>)
    ensures |b| == 8 * WordBytes(s)
  {
    var k := WordBytes(s);
    ToBytes(r.a, k) + ToBytes(r.b, k) + ToBytes(r.c, k) + ToBytes(r.d, k)
    + ToBytes(r.e, k) + ToBytes(r.f, k) + ToBytes(r.g, k) + ToBytes(r.h, k)
  }

  /** The digest of a message: the leftmost mdLen bytes of the final chaining value. */
  function Hash(s: Suite, init: Regs, message: seq<bv8>, mdLen: nat): seq<bv8>
    requires mdLen <= 8 * WordBytes(s)
  {
    FlatRegs(s, Absorb(s, init, message + Padding(s, |message|)))[..mdLen]
  }

  /** The padding is the shortest that makes the message a whole number of blocks. */
  lemma PaddingCompletesBlock(s: Suite, length: nat, z: nat)
    ensures (length + 1 + PadZeros(s, length) + LengthBytes(s)) % BlockBytes(s) == 0
    ensures (length + 1 + z + LengthBytes(s)) % BlockBytes(s) == 0 ==> PadZeros(s, length) <= z
  {
    var block, field, n, q := BlockBytes(s), LengthBytes(s), length % BlockBytes(s), length / BlockBytes(s);
    assert length == q * block + n;
    var up := if n + 1 + field <= block then 1 else 2;
    assert length + 1 + PadZeros(s, length) + field == (q + up) * block + 0;
    DivModUnique(length + 1 + PadZeros(s, length) + field, block, q + up, 0);
    if z < PadZeros(s, length) {
      var k := n + 1 + z + field - (up - 1) * block;
      assert length + 1 + z + field == (q + up - 1) * block + k;
      DivModUnique(length + 1 + z + field, block, q + up - 1, k);
    }
  }

  function Pow256(k: nat): (p: nat)
    ensures p > 0
  {
    if k == 0 then 1 else 256 * Pow256(k - 1)
  }

  /** hi in front of lo, which is k bytes wide. */
  function Joined(hi: nat, lo: nat, k: nat): nat {
    hi * Pow256(k) + lo
  }

  lemma SplitStep(hi: nat, lo: nat, p: nat)
    requires lo < 256 * p
    ensures var n := hi * (256 * p) + lo; n / 256 == hi * p + lo / 256 && n % 256 == lo % 256 && lo / 256 < p
  {
    var n := hi * (256 * p) + lo;
    var h, l := hi * p, lo / 256;
    assert hi * (256 * p) == 256 * h;
    assert n == (h + l) * 256 + lo % 256;
    DivModUnique(n, 256, h + l, lo % 256);
  }

  lemma JoinedStep(hi: nat, lo: nat, k: nat)
    requires k > 0 && lo < Pow256(k)
    ensures Joined(hi, lo, k) / 256 == Joined(hi, lo / 256, k - 1) && lo / 256 < Pow256(k - 1)
    ensures LowByte(Joined(hi, lo, k)) == LowByte(lo)
  {
    SplitStep(hi, lo, Pow256(k - 1));
  }

  lemma ToBytesStep(n: nat, k: nat)
    requires k > 0
    ensures ToBytes(n, k) == ToBytes(n / 256, k - 1) + [LowByte(n)]
  {
    hide LowByte;
  }

  lemma JoinedAlone(hi: nat, lo: nat)
    requires lo < Pow256(0)
    ensures Joined(hi, lo, 0) == hi && ToBytes(lo, 0) == []
  {
  }

  lemma {:induction false} JoinedBytes(hi: nat, lo: nat, j: nat, k: nat)
    requires lo < Pow256(k)
    ensures ToBytes(Joined(hi, lo, k), j + k) == ToBytes(hi, j) + ToBytes(lo, k)
  {
    hide ToBytes, Pow256, Joined, LowByte;
    if k == 0 {
      JoinedAlone(hi, lo);
    } else {
      JoinedStep(hi, lo, k);
      JoinedBytes(hi, lo / 256, j, k - 1);
      ToBytesStep(Joined(hi, lo, k), j + k);
      ToBytesStep(lo, k);
    }
  }

  /** A two-word number is stored as its high word followed by its low word. */
  lemma ToBytesSplits(hi: nat, lo: nat, j: nat, k: nat)
    requires lo < Pow256(k)
    ensures ToBytes(hi * Pow256(k) + lo, j + k) == ToBytes(hi, j) + ToBytes(lo, k)
  {
    JoinedBytes(hi, lo, j, k);
  }

  /** Only the residue of a number matters to its low bytes. */
  lemma ToBytesModulo(q: nat, r: nat, k: nat)
    requires r < Pow256(k)
    ensures ToBytes(q * Pow256(k) + r, k) == ToBytes(r, k)
  {
    ToBytesSplits(q, r, 0, k);
  }

  lemma Commute(s: Suite, x: Word, y: Word)
    ensures Add(s, x, y) == Add(s, y, x)
  {
  }

  lemma Assoc(s: Suite, x: Word, y: Word, z: Word)
    ensures Add(s, Add(s, x, y), z) == Add(s, x, Add(s, y, z))
  {
    AddUnfolds(s, x, y, z);
    AddUnfolds(s, y, z, x);
    hide Add;
    Commute(s, x, Add(s, y, z));
    assert x + y + z == y + z + x;
  }

  lemma AddUnfolds(s: Suite, x: Word, y: Word, z: Word)
    ensures Add(s, Add(s, x, y), z) == (x + y + z) % Modulus(s)
  {
    hide Modulus;
    ModAdd(x + y, z, Modulus(s));
  }

  /** The two groupings the code uses for a schedule word both equal the standard's. */
  lemma ScheduleGroupings(s: Suite, p: Word, q: Word, u: Word, v: Word)
    ensures Add(s, v, Add(s, Add(s, u, p), q)) == Add(s, Add(s, Add(s, p, q), u), v)
    ensures Add(s, Add(s, u, p), Add(s, v, q)) == Add(s, Add(s, Add(s, p, q), u), v)
  {
    hide Add;
    Commute(s, v, Add(s, Add(s, u, p), q));
    Assoc(s, u, p, q);
    Commute(s, u, Add(s, p, q));
    Commute(s, v, q);
    Assoc(s, Add(s, u, p), q, v);
  }
}
