/** The word macros of sha256.c and sha512.c against section 4.1 of FIPS 180-4. */
module Sha2Macros {
  import opened Arithmetic
  import opened Bytes
  import opened Sha2Spec

  /** ROTATE of md32_common.h, a left rotation. */
  function Rotate(a: bv32, n: nat): bv32
    requires n <= 32
  {
    Or32(Shl32(a, n), Shr32(a, 32 - n))
  }

  lemma OrCommutes(x: bv32, y: bv32)
    ensures Or32(x, y) == Or32(y, x)
  {
  }

  lemma LeftIsRight(x: bv32, n: nat)
    requires n <= 32
    ensures Rotate(x, n) == Rotr32(x, 32 - n)
  {
    hide Or32, Shl32, Shr32;
    OrCommutes(Shl32(x, n), Shr32(x, 32 - n));
  }

  /** The left rotations of sha256.c are the right rotations of the standard. */
  lemma Macros256(x: bv32)
    ensures Xor32(Rotate(x, 30), Rotate(x, 19), Rotate(x, 10)) == Sum0Bits(x)
    ensures Xor32(Rotate(x, 26), Rotate(x, 21), Rotate(x, 7)) == Sum1Bits(x)
    ensures Xor32(Rotate(x, 25), Rotate(x, 14), Shr32(x, 3)) == Sig0Bits(x)
    ensures Xor32(Rotate(x, 15), Rotate(x, 13), Shr32(x, 10)) == Sig1Bits(x)
  {
    hide Rotate, Rotr32, Xor32, Shr32, Or32;
    LeftIsRight(x, 30);
    LeftIsRight(x, 19);
    LeftIsRight(x, 10);
    LeftIsRight(x, 26);
    LeftIsRight(x, 21);
    LeftIsRight(x, 7);
    LeftIsRight(x, 25);
    LeftIsRight(x, 14);
    LeftIsRight(x, 15);
    LeftIsRight(x, 13);
  }

  // The macros of the two files: sha256.c rotates left, sha512.c rotates right as the standard does.

  function MacroSum0(s: Suite, x: Word): Word {
    if s.Sha256? then var v := To32(x); Xor32(Rotate(v, 30), Rotate(v, 19), Rotate(v, 10)) as nat else Sum0(s, x)
  }

  function MacroSum1(s: Suite, x: Word): Word {
    if s.Sha256? then var v := To32(x); Xor32(Rotate(v, 26), Rotate(v, 21), Rotate(v, 7)) as nat else Sum1(s, x)
  }

  function MacroSig0(s: Suite, x: Word): Word {
    if s.Sha256? then var v := To32(x); Xor32(Rotate(v, 25), Rotate(v, 14), Shr32(v, 3)) as nat else Sig0(s, x)
  }

  function MacroSig1(s: Suite, x: Word): Word {
    if s.Sha256? then var v := To32(x); Xor32(Rotate(v, 15), Rotate(v, 13), Shr32(v, 10)) as nat else Sig1(s, x)
  }

  lemma MacrosAreStandard(s: Suite, x: Word)
    ensures MacroSum0(s, x) == Sum0(s, x) && MacroSum1(s, x) == Sum1(s, x)
    ensures MacroSig0(s, x) == Sig0(s, x) && MacroSig1(s, x) == Sig1(s, x)
  {
    hide Rotate, Xor32, Shr32, To32, To64, Sum0Bits, Sum1Bits, Sig0Bits, Sig1Bits;
    if s.Sha256? { Macros256(To32(x)); }
  }

  /** Loading a word and storing it again restores its bytes. */
  lemma {:induction false} StoreAfterLoad(b: seq<bv8>)
    ensures ToBytes(FromBytes(b), |b|) == b
  {
    if b != [] {
      var n := |b| - 1;
      StoreAfterLoad(b[..n]);
      DivModUnique(FromBytes(b), 256, FromBytes(b[..n]), b[n] as nat);
      assert b == b[..n] + [b[n]];
    }
  }

  lemma RemainderStep(n: nat, p: nat)
    requires p > 0
    ensures n / 256 % p * 256 + n % 256 == n % (256 * p)
  {
    var q, r := n / 256 / p, n / 256 % p;
    assert n / 256 == q * p + r;
    assert n == q * (256 * p) + (r * 256 + n % 256);
    DivModUnique(n, 256 * p, q, r * 256 + n % 256);
  }

  lemma FromBytesAppend(b: seq<bv8>, x: bv8)
    ensures FromBytes(b + [x]) == FromBytes(b) * 256 + x as nat
  {
    assert (b + [x])[..|b|] == b;
  }

  lemma ByteOfNumber(b: bv8, n: nat)
    requires n % 256 == Num(b)
    ensures LowByte(n) == b
  {
  }

  lemma LowByteIs(n: nat)
    ensures Num(LowByte(n)) == n % 256
  {
    hide LowByte, Byte, Num;
    ByteRoundTrip(n % 256);
    ByteOfNumber(Byte(n % 256), n);
  }

  lemma NumIs(b: bv8)
    ensures Num(b) == b as nat
  {
  }

  lemma NoBytes(n: nat)
    ensures FromBytes(ToBytes(n, 0)) == 0 == n % Pow256(0)
  {
  }

  lemma MoreBytes(k: nat)
    ensures Pow256(k + 1) == 256 * Pow256(k)
  {
  }

  /** Storing a number and loading it again gives what fits in so many bytes. */
  lemma {:induction false} LoadAfterStore(n: nat, k: nat)
    ensures FromBytes(ToBytes(n, k)) == n % Pow256(k)
  {
    hide FromBytes, ToBytes, Pow256, LowByte;
    if k == 0 {
      NoBytes(n);
    } else {
      LoadAfterStore(n / 256, k - 1);
      ToBytesStep(n, k);
      FromBytesAppend(ToBytes(n / 256, k - 1), LowByte(n));
      LowByteIs(n);
      NumIs(LowByte(n));
      MoreBytes(k - 1);
      RemainderStep(n, Pow256(k - 1));
    }
  }

  lemma OneByte(x: bv8)
    ensures FromBytes([x]) == x as nat * Pow256(0) + FromBytes([])
  {
    FromBytesAppend([], x);
    assert [] + [x] == [x];
  }

  /** The first byte weighs most. */
  lemma {:induction false} FirstByteFirst(x: bv8, b: seq<bv8>)
    ensures FromBytes([x] + b) == x as nat * Pow256(|b|) + FromBytes(b)
  {
    hide FromBytes, Pow256;
    if b == [] {
      OneByte(x);
      assert [x] + b == [x];
    } else {
      var n := |b| - 1;
      FirstByteFirst(x, b[..n]);
      FromBytesAppend([x] + b[..n], b[n]);
      FromBytesAppend(b[..n], b[n]);
      assert b == b[..n] + [b[n]] && [x] + b == [x] + b[..n] + [b[n]];
      MoreBytes(n);
      Scale(x as nat, Pow256(n), FromBytes(b[..n]));
    }
  }

  lemma Scale(x: nat, p: nat, y: nat)
    ensures (x * p + y) * 256 == x * (256 * p) + y * 256
  {
  }

  /** The padding: the byte 80, zeros, and in the last 8 or 16 bytes the bit length of the message, most significant
      byte first. */
  lemma PaddingBytes(s: Suite, length: nat)
    ensures var p, k := Padding(s, length), if s.Sha256? then 8 else 16;
            && |p| > k && p[0] == 0x80 && (forall i | 1 <= i < |p| - k :: p[i] == 0)
            && FromBytes(p[|p| - k..]) == 8 * length % Pow256(k)
  {
    var p, k := Padding(s, length), if s.Sha256? then 8 else 16;
    hide ToBytes, FromBytes, Pow256;
    assert p[|p| - k..] == ToBytes(8 * length, k);
    LoadAfterStore(8 * length, k);
  }
}
