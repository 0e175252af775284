/** The eight-byte buffer form of a ROM code: bit i is bit i % 8 of byte i / 8. */
module RomBytes {
  import opened RomOrder

  function Mask(j: nat): bv8
    requires j < 8
  {
    if j == 0 then 0x01 else if j == 1 then 0x02 else if j == 2 then 0x04 else if j == 3 then 0x08
    else if j == 4 then 0x10 else if j == 5 then 0x20 else if j == 6 then 0x40 else 0x80
  }

  predicate BitOf(rom: seq<bv8>, i: nat)
    requires |rom| == 8 && i < 64
  {
    rom[i / 8] & Mask(i % 8) != 0
  }

  function Bits(rom: seq<bv8>): (c: Code)
    requires |rom| == 8
  {
    seq(64, i requires 0 <= i < 64 => BitOf(rom, i))
  }

  /** Shifting the mask moves to the next bit, and empties it after the eighth. */
  lemma MaskShift(j: nat)
    requires j < 8
    ensures Mask(j) << 1 == if j == 7 then 0 else Mask(j + 1)
    ensures Mask(j) != 0
  {
  }

  /** A byte with one masked bit set or cleared. */
  function PutBit(x: bv8, j: nat, v: bool): bv8
    requires j < 8
  {
    if v then x | Mask(j) else x & !Mask(j)
  }

  function SetBits(x: bv8, mask: bv8): bv8 { x | mask }

  function ClearBits(x: bv8, mask: bv8): bv8 { x & !mask }

  lemma PutBitIs(x: bv8, j: nat, v: bool)
    requires j < 8
    ensures PutBit(x, j, v) == if v then SetBits(x, Mask(j)) else ClearBits(x, Mask(j))
  {
    hide Mask;
  }

  lemma PutBitReads(x: bv8, j: nat, v: bool, k: nat)
    requires j < 8 && k < 8
    ensures PutBit(x, j, v) & Mask(k) != 0 <==> if j == k then v else x & Mask(k) != 0
  {
  }

  lemma BitOfUpdate(rom: seq<bv8>, i: nat, v: bool, k: nat)
    requires |rom| == 8 && i < 64 && k < 64
    ensures BitOf(rom[i / 8 := PutBit(rom[i / 8], i % 8, v)], k) == if k == i then v else BitOf(rom, k)
  {
    if i / 8 == k / 8 {
      PutBitReads(rom[i / 8], i % 8, v, k % 8);
    }
  }

  /** Writing one bit through its mask changes that bit of the code and no other. */
  lemma BitsOfUpdate(rom: seq<bv8>, i: nat, v: bool)
    requires |rom| == 8 && i < 64
    ensures Bits(rom[i / 8 := PutBit(rom[i / 8], i % 8, v)]) == Bits(rom)[i := v]
  {
    var after := rom[i / 8 := PutBit(rom[i / 8], i % 8, v)];
    forall k: nat | k < 64 ensures Bits(after)[k] == Bits(rom)[i := v][k] {
      BitOfUpdate(rom, i, v, k);
    }
  }

  lemma ByteExtensionality(x: bv8, y: bv8)
    requires forall j: nat | j < 8 :: x & Mask(j) != 0 <==> y & Mask(j) != 0
    ensures x == y
  {
    assert Mask(0) == 0x01 && Mask(1) == 0x02 && Mask(2) == 0x04 && Mask(3) == 0x08;
    assert Mask(4) == 0x10 && Mask(5) == 0x20 && Mask(6) == 0x40 && Mask(7) == 0x80;
  }

  lemma BitAt(rom: seq<bv8>, b: nat, j: nat)
    requires |rom| == 8 && b < 8 && j < 8
    ensures Bits(rom)[8 * b + j] <==> rom[b] & Mask(j) != 0
  {
    hide Mask;
    assert (8 * b + j) / 8 == b && (8 * b + j) % 8 == j;
    assert Bits(rom)[8 * b + j] == BitOf(rom, 8 * b + j);
  }

  /** The buffer form determines the code and is determined by it. */
  lemma BitsInjective(rom: seq<bv8>, rom': seq<bv8>)
    requires |rom| == |rom'| == 8 && Bits(rom) == Bits(rom')
    ensures rom == rom'
  {
    hide Bits, Mask;
    forall b: nat | b < 8 ensures rom[b] == rom'[b] {
      forall j: nat | j < 8 ensures rom[b] & Mask(j) != 0 <==> rom'[b] & Mask(j) != 0 {
        BitAt(rom, b, j);
        BitAt(rom', b, j);
      }
      ByteExtensionality(rom[b], rom'[b]);
    }
  }

  /** Byte 0 is the first eight bits. */
  lemma FirstByteIsFamily(rom: seq<bv8>)
    requires |rom| == 8
    ensures rom[0] != 0 <==> HasFamily(Bits(rom))
  {
    hide Bits, Mask;
    if HasFamily(Bits(rom)) {
      var i :| 0 <= i < 8 && Bits(rom)[i];
      BitAt(rom, 0, i);
    } else {
      forall j: nat | j < 8 ensures rom[0] & Mask(j) != 0 <==> 0 as bv8 & Mask(j) != 0 {
        BitAt(rom, 0, j);
      }
      ByteExtensionality(rom[0], 0);
    }
  }
}
