/** The 8- and 16-bit 1-Wire CRCs: the table and parity forms against bit-serial division. */
module Crc {

  // ---- CRC8: reflected polynomial 0x8C ----

  function Xor8(x: bv8, y: bv8): bv8 { x ^ y }

  lemma Xor8Laws(x: bv8, y: bv8, z: bv8)
    ensures Xor8(x, y) == Xor8(y, x) && Xor8(Xor8(x, y), z) == Xor8(x, Xor8(y, z))
    ensures Xor8(x, x) == 0 && Xor8(x, 0) == x && (Xor8(x, y) == 0 <==> x == y)
  {
  }

  /** One bit of division. */
  function Shift8(crc: bv8): bv8 {
    if crc & 1 != 0 then (crc >> 1) ^ 0x8C else crc >> 1
  }

  /** k bits of division. */
  function Divide8(crc: bv8, k: nat): bv8 {
    if k == 0 then crc else Shift8(Divide8(crc, k - 1))
  }

  /** Absorbs one message byte. */
  function Byte8(crc: bv8, b: bv8): bv8 {
    Divide8(Xor8(crc, b), 8)
  }

  /** The checksum of a message is the remainder after absorbing its bytes in order. */
  function Crc8(m: seq<bv8>): bv8 {
    if m == [] then 0 else Byte8(Crc8(m[..|m| - 1]), m[|m| - 1])
  }

  lemma HalfXor8(x: bv8, y: bv8)
    ensures (x ^ y) >> 1 == (x >> 1) ^ (y >> 1)
    ensures (x ^ y) & 1 != 0 <==> (x & 1 != 0) != (y & 1 != 0)
  {
  }

  lemma Shift8Linear(x: bv8, y: bv8)
    ensures Shift8(Xor8(x, y)) == Xor8(Shift8(x), Shift8(y))
    ensures x != 0 ==> Shift8(x) != 0
  {
    HalfXor8(x, y);
  }

  lemma {:induction false} Divide8Linear(x: bv8, y: bv8, k: nat)
    ensures Divide8(Xor8(x, y), k) == Xor8(Divide8(x, k), Divide8(y, k))
    ensures x != 0 ==> Divide8(x, k) != 0
  {
    hide Shift8, Xor8;
    if k > 0 {
      Divide8Linear(x, y, k - 1);
      Shift8Linear(Divide8(x, k - 1), Divide8(y, k - 1));
    }
  }

  /** Sixteen consecutive table entries. */
  datatype Row = Row(a0: bv8, a1: bv8, a2: bv8, a3: bv8, a4: bv8, a5: bv8, a6: bv8, a7: bv8,
                     a8: bv8, a9: bv8, a10: bv8, a11: bv8, a12: bv8, a13: bv8, a14: bv8, a15: bv8)
  {
    function At(lo: bv8): bv8 {
      if lo == 0 then a0 else if lo == 1 then a1 else if lo == 2 then a2 else if lo == 3 then a3 else if lo == 4 then a4
      else if lo == 5 then a5 else if lo == 6 then a6 else if lo == 7 then a7 else if lo == 8 then a8 else
      if lo == 9 then a9
      else if lo == 10 then a10 else if lo == 11 then a11 else if lo == 12 then a12 else if lo == 13 then a13 else
      if lo == 14 then a14
      else a15
    }

    function Offset(c: bv8): Row {
      Row(Xor8(a0, c), Xor8(a1, c), Xor8(a2, c), Xor8(a3, c), Xor8(a4, c), Xor8(a5, c), Xor8(a6, c), Xor8(a7, c),
          Xor8(a8, c), Xor8(a9, c), Xor8(a10, c), Xor8(a11, c), Xor8(a12, c), Xor8(a13, c), Xor8(a14, c), Xor8(a15, c))
    }
  }

  function Row0(): Row { Row(0, 94, 188, 226, 97, 63, 221, 131, 194, 156, 126, 32, 163, 253, 31, 65) }

  function Row1(): Row { Row(157, 195, 33, 127, 252, 162, 64, 30, 95, 1, 227, 189, 62, 96, 130, 220) }

  function Row2(): Row { Row(35, 125, 159, 193, 66, 28, 254, 160, 225, 191, 93, 3, 128, 222, 60, 98) }

  function Row3(): Row { Row(190, 224, 2, 92, 223, 129, 99, 61, 124, 34, 192, 158, 29, 67, 161, 255) }

  function Row4(): Row { Row(70, 24, 250, 164, 39, 121, 155, 197, 132, 218, 56, 102, 229, 187, 89, 7) }

  function Row5(): Row { Row(219, 133, 103, 57, 186, 228, 6, 88, 25, 71, 165, 251, 120, 38, 196, 154) }

  function Row6(): Row { Row(101, 59, 217, 135, 4, 90, 184, 230, 167, 249, 27, 69, 198, 152, 122, 36) }

  function Row7(): Row { Row(248, 166, 68, 26, 153, 199, 37, 123, 58, 100, 134, 216, 91, 5, 231, 185) }

  function Row8(): Row { Row(140, 210, 48, 110, 237, 179, 81, 15, 78, 16, 242, 172, 47, 113, 147, 205) }

  function Row9(): Row { Row(17, 79, 173, 243, 112, 46, 204, 146, 211, 141, 111, 49, 178, 236, 14, 80) }

  function Row10(): Row { Row(175, 241, 19, 77, 206, 144, 114, 44, 109, 51, 209, 143, 12, 82, 176, 238) }

  function Row11(): Row { Row(50, 108, 142, 208, 83, 13, 239, 177, 240, 174, 76, 18, 145, 207, 45, 115) }

  function Row12(): Row { Row(202, 148, 118, 40, 171, 245, 23, 73, 8, 86, 180, 234, 105, 55, 213, 139) }

  function Row13(): Row { Row(87, 9, 235, 181, 54, 104, 138, 212, 149, 203, 41, 119, 244, 170, 72, 22) }

  function Row14(): Row { Row(233, 183, 85, 11, 136, 214, 52, 106, 43, 117, 151, 201, 74, 20, 246, 168) }

  function Row15(): Row { Row(116, 42, 200, 150, 21, 75, 169, 247, 182, 232, 10, 84, 215, 137, 107, 53) }

  function TableRow(h: bv8): Row {
    if h == 0 then Row0() else if h == 1 then Row1() else if h == 2 then Row2() else if h == 3 then Row3()
    else if h == 4 then Row4() else if h == 5 then Row5() else if h == 6 then Row6() else if h == 7 then Row7()
    else if h == 8 then Row8() else if h == 9 then Row9() else if h == 10 then Row10() else if h == 11 then Row11()
    else if h == 12 then Row12() else if h == 13 then Row13() else if h == 14 then Row14() else Row15()
  }

  /** The 256-entry lookup table. */
  function DscrcTable(i: bv8): bv8 {
    TableRow(i >> 4).At(i & 0x0F)
  }

  lemma LowNibbles()
    ensures Divide8(0, 8) == 0 && Divide8(1, 8) == 94 && Divide8(2, 8) == 188 && Divide8(3, 8) == 226
    ensures Divide8(4, 8) == 97 && Divide8(5, 8) == 63 && Divide8(6, 8) == 221 && Divide8(7, 8) == 131
    ensures Divide8(8, 8) == 194 && Divide8(9, 8) == 156 && Divide8(10, 8) == 126 && Divide8(11, 8) == 32
    ensures Divide8(12, 8) == 163 && Divide8(13, 8) == 253 && Divide8(14, 8) == 31 && Divide8(15, 8) == 65
  {
  }

  lemma HighNibbles()
    ensures Divide8(16, 8) == 157 && Divide8(32, 8) == 35 && Divide8(48, 8) == 190 && Divide8(64, 8) == 70
    ensures Divide8(80, 8) == 219 && Divide8(96, 8) == 101 && Divide8(112, 8) == 248 && Divide8(128, 8) == 140
    ensures Divide8(144, 8) == 17 && Divide8(160, 8) == 175 && Divide8(176, 8) == 50 && Divide8(192, 8) == 202
    ensures Divide8(208, 8) == 87 && Divide8(224, 8) == 233 && Divide8(240, 8) == 116
  {
  }

  predicate EntryDivides(l: bv8) {
    TableRow(0).At(l) == Divide8(l, 8)
  }

  lemma Entries0To3()
    ensures EntryDivides(0) && EntryDivides(1) && EntryDivides(2) && EntryDivides(3)
  {
    hide Divide8;
    LowNibbles();
  }

  lemma Entries4To7()
    ensures EntryDivides(4) && EntryDivides(5) && EntryDivides(6) && EntryDivides(7)
  {
    hide Divide8;
    LowNibbles();
  }

  lemma Entries8To11()
    ensures EntryDivides(8) && EntryDivides(9) && EntryDivides(10) && EntryDivides(11)
  {
    hide Divide8;
    LowNibbles();
  }

  lemma Entries12To15()
    ensures EntryDivides(12) && EntryDivides(13) && EntryDivides(14) && EntryDivides(15)
  {
    hide Divide8;
    LowNibbles();
  }

  /** The values of a nibble. */
  lemma NibbleCases(l: bv8)
    requires l < 16
    ensures l == 0 || l == 1 || l == 2 || l == 3 || l == 4 || l == 5 || l == 6 || l == 7
            || l == 8 || l == 9 || l == 10 || l == 11 || l == 12 || l == 13 || l == 14 || l == 15
  {
  }

  lemma EntryAt(l: bv8)
    requires l < 16
    ensures EntryDivides(l)
  {
    hide EntryDivides;
    NibbleCases(l);
    Entries0To3();
    Entries4To7();
    Entries8To11();
    Entries12To15();
  }

  /** The first row divides the low nibbles. */
  lemma FirstRow(l: bv8)
    requires l < 16
    ensures TableRow(0).At(l) == Divide8(l, 8)
  {
    hide TableRow, Row.At, Divide8;
    EntryAt(l);
  }

  predicate IsOffset(r: Row) {
    r == Row0().Offset(r.a0)
  }

  lemma Rows0To3()
    ensures IsOffset(Row0()) && IsOffset(Row1()) && IsOffset(Row2()) && IsOffset(Row3())
  {
  }

  lemma Rows4To7()
    ensures IsOffset(Row4()) && IsOffset(Row5()) && IsOffset(Row6()) && IsOffset(Row7())
  {
  }

  lemma Rows8To11()
    ensures IsOffset(Row8()) && IsOffset(Row9()) && IsOffset(Row10()) && IsOffset(Row11())
  {
  }

  lemma Rows12To15()
    ensures IsOffset(Row12()) && IsOffset(Row13()) && IsOffset(Row14()) && IsOffset(Row15())
  {
  }

  lemma FirstOfTable()
    ensures TableRow(0) == Row0()
  {
  }

  lemma TableRows(h: bv8)
    ensures IsOffset(TableRow(h))
  {
    hide IsOffset;
    hide Row0, Row1, Row2, Row3, Row4, Row5, Row6, Row7, Row8, Row9, Row10, Row11, Row12, Row13, Row14, Row15;
    Rows0To3();
    Rows4To7();
    Rows8To11();
    Rows12To15();
  }

  /** Each row is the first row offset by its own first entry. */
  lemma RowOffset(h: bv8)
    requires h < 16
    ensures TableRow(h) == TableRow(0).Offset(TableRow(h).a0)
  {
    hide TableRow, Row0, Row.Offset;
    TableRows(h);
    FirstOfTable();
  }

  lemma AtOffset(r: Row, c: bv8, l: bv8)
    ensures r.Offset(c).At(l) == Xor8(r.At(l), c)
  {
    hide Xor8;
  }

  predicate ColumnDivides(h: bv8) {
    TableRow(h).a0 == Divide8(h << 4, 8)
  }

  lemma Column0To3()
    ensures ColumnDivides(0) && ColumnDivides(1) && ColumnDivides(2) && ColumnDivides(3)
  {
    hide Divide8;
    HighNibbles();
    LowNibbles();
  }

  lemma Column4To7()
    ensures ColumnDivides(4) && ColumnDivides(5) && ColumnDivides(6) && ColumnDivides(7)
  {
    hide Divide8;
    HighNibbles();
    LowNibbles();
  }

  lemma Column8To11()
    ensures ColumnDivides(8) && ColumnDivides(9) && ColumnDivides(10) && ColumnDivides(11)
  {
    hide Divide8;
    HighNibbles();
    LowNibbles();
  }

  lemma Column12To15()
    ensures ColumnDivides(12) && ColumnDivides(13) && ColumnDivides(14) && ColumnDivides(15)
  {
    hide Divide8;
    HighNibbles();
    LowNibbles();
  }

  lemma ColumnAt(h: bv8)
    requires h < 16
    ensures ColumnDivides(h)
  {
    hide ColumnDivides;
    NibbleCases(h);
    Column0To3();
    Column4To7();
    Column8To11();
    Column12To15();
  }

  lemma FirstColumn(h: bv8)
    requires h < 16
    ensures TableRow(h).a0 == Divide8(h << 4, 8)
  {
    hide TableRow, Divide8;
    ColumnAt(h);
  }

  lemma Nibbles(i: bv8)
    ensures Xor8(i & 0x0F, (i >> 4) << 4) == i && i & 0x0F < 16 && i >> 4 < 16
  {
  }

  /** Every table entry is the division of its index. */
  lemma TableEntry(i: bv8)
    ensures DscrcTable(i) == Divide8(i, 8)
  {
    var h, l := i >> 4, i & 0x0F;
    Nibbles(i);
    hide Divide8, Xor8, TableRow, Row.At, Row.Offset;
    RowOffset(h);
    AtOffset(TableRow(0), TableRow(h).a0, l);
    FirstRow(l);
    FirstColumn(h);
    Divide8Linear(l, h << 4, 8);
  }

  // ---- CRC16: reflected polynomial 0xA001 ----

  function Xor16(x: bv16, y: bv16): bv16 { x ^ y }

  lemma Xor16Assoc(x: bv16, y: bv16, z: bv16)
    ensures Xor16(Xor16(x, y), z) == Xor16(x, Xor16(y, z)) && Xor16(x, y) == Xor16(y, x)
  {
  }

  lemma Xor16Zero(x: bv16, y: bv16)
    ensures Xor16(x, x) == 0 && Xor16(x, 0) == x && (Xor16(x, y) == 0 <==> x == y)
  {
  }

  predicate Odd16(x: bv16) { x & 1 != 0 }

  function Half16(x: bv16): bv16 { x >> 1 }

  function Shift16(crc: bv16): bv16 {
    if crc & 1 != 0 then (crc >> 1) ^ 0xA001 else crc >> 1
  }

  function Divide16(crc: bv16, k: nat): bv16 {
    if k == 0 then crc else Shift16(Divide16(crc, k - 1))
  }

  function Byte16(crc: bv16, b: bv8): bv16 {
    Divide16(Xor16(crc, b as bv16), 8)
  }

  function Crc16(m: seq<bv8>): bv16 {
    if m == [] then 0 else Byte16(Crc16(m[..|m| - 1]), m[|m| - 1])
  }

  lemma Shift16Unfolds(x: bv16)
    ensures Shift16(x) == if Odd16(x) then Xor16(Half16(x), 0xA001) else Half16(x)
  {
  }

  lemma HalfXor16(x: bv16, y: bv16)
    ensures Half16(Xor16(x, y)) == Xor16(Half16(x), Half16(y))
    ensures Odd16(Xor16(x, y)) <==> Odd16(x) != Odd16(y)
  {
  }

  lemma Shift16Linear(x: bv16, y: bv16)
    ensures Shift16(Xor16(x, y)) == Xor16(Shift16(x), Shift16(y))
  {
    hide Xor16, Half16, Odd16, Shift16;
    var p, q, a := Half16(x), Half16(y), 0xA001;
    HalfXor16(x, y);
    Shift16Unfolds(x);
    Shift16Unfolds(y);
    Shift16Unfolds(Xor16(x, y));
    Xor16Assoc(p, q, a);
    Xor16Assoc(p, a, q);
    Xor16Assoc(a, q, 0);
    Xor16Assoc(Xor16(p, a), q, a);
    Xor16Assoc(p, Xor16(q, a), a);
    Xor16Assoc(q, a, a);
    Xor16Zero(a, a);
    Xor16Zero(q, q);
  }

  lemma Shift16NonZero(x: bv16)
    ensures x != 0 ==> Shift16(x) != 0
    ensures x & 1 == 0 ==> Shift16(x) == x >> 1
  {
  }

  lemma {:induction false} Divide16Linear(x: bv16, y: bv16, k: nat)
    ensures Divide16(Xor16(x, y), k) == Xor16(Divide16(x, k), Divide16(y, k))
    ensures x != 0 ==> Divide16(x, k) != 0
  {
    hide Shift16, Xor16;
    if k > 0 {
      Divide16Linear(x, y, k - 1);
      Shift16Linear(Divide16(x, k - 1), Divide16(y, k - 1));
      Shift16NonZero(Divide16(x, k - 1));
    }
  }

  lemma LowNibbles16()
    ensures Divide16(0x00, 8) == 0x0000 && Divide16(0x01, 8) == 0xC0C1
            && Divide16(0x02, 8) == 0xC181 && Divide16(0x03, 8) == 0x0140
    ensures Divide16(0x04, 8) == 0xC301 && Divide16(0x05, 8) == 0x03C0
            && Divide16(0x06, 8) == 0x0280 && Divide16(0x07, 8) == 0xC241
    ensures Divide16(0x08, 8) == 0xC601 && Divide16(0x09, 8) == 0x06C0
            && Divide16(0x0A, 8) == 0x0780 && Divide16(0x0B, 8) == 0xC741
    ensures Divide16(0x0C, 8) == 0x0500 && Divide16(0x0D, 8) == 0xC5C1
            && Divide16(0x0E, 8) == 0xC481 && Divide16(0x0F, 8) == 0x0440
  {
  }

  lemma HighNibbles16()
    ensures Divide16(0x10, 8) == 0xCC01 && Divide16(0x20, 8) == 0xD801
            && Divide16(0x30, 8) == 0x1400 && Divide16(0x40, 8) == 0xF001
    ensures Divide16(0x50, 8) == 0x3C00 && Divide16(0x60, 8) == 0x2800
            && Divide16(0x70, 8) == 0xE401 && Divide16(0x80, 8) == 0xA001
    ensures Divide16(0x90, 8) == 0x6C00 && Divide16(0xA0, 8) == 0x7800
            && Divide16(0xB0, 8) == 0xB401 && Divide16(0xC0, 8) == 0x5000
    ensures Divide16(0xD0, 8) == 0x9C01 && Divide16(0xE0, 8) == 0x8801 && Divide16(0xF0, 8) == 0x4400
  {
  }

  /** The parity table of a nibble. */
  function OddParity(n: bv8): bv8 {
    Row(0, 1, 1, 0, 1, 0, 0, 1, 1, 0, 0, 1, 0, 1, 1, 0).At(n)
  }

  /** The feedback of one byte in closed form: two shifted copies, and 0xC001 when its parity is odd. */
  function Feedback(y: bv8): bv16 {
    var w := y as bv16;
    Xor16(Xor16(if OddParity(y & 0x0F) ^ OddParity(y >> 4) != 0 then 0xC001 else 0, w << 6), w << 7)
  }

  lemma FeedbackOfLow(l: bv8)
    requires l < 16
    ensures Feedback(l) == Divide16(l as bv16, 8)
  {
    hide Divide16;
    LowNibbles16();
  }

  lemma FeedbackOfHigh(h: bv8)
    requires h < 16
    ensures Feedback(h << 4) == Divide16((h << 4) as bv16, 8)
  {
    hide Divide16;
    LowNibbles16();
    HighNibbles16();
  }

  lemma FeedbackSplits(i: bv8)
    ensures Feedback(i) == Xor16(Feedback(i & 0x0F), Feedback((i >> 4) << 4))
  {
  }

  lemma FeedbackDivides(i: bv8)
    ensures Feedback(i) == Divide16(i as bv16, 8)
  {
    var h, l := i >> 4, i & 0x0F;
    assert Xor16(l as bv16, (h << 4) as bv16) == i as bv16 && l < 16 && h < 16 by { hide Feedback, Divide16; }
    hide Feedback, Divide16, Xor16;
    FeedbackSplits(i);
    FeedbackOfLow(l);
    FeedbackOfHigh(h);
    Divide16Linear(l as bv16, (h << 4) as bv16, 8);
  }

  /** Dividing an even number only halves it. */
  lemma EvenShifts(w: bv16, v: bv16, k: nat)
    requires k > 0 && Divide16(w, k - 1) == v && v & 1 == 0
    ensures Divide16(w, k) == v >> 1
  {
    Shift16NonZero(v);
  }

  lemma ClearBits(w: bv16)
    requires w & 0x00FF == 0
    ensures w & 1 == 0 && (w >> 1) & 1 == 0 && (w >> 2) & 1 == 0 && (w >> 3) & 1 == 0
    ensures (w >> 4) & 1 == 0 && (w >> 5) & 1 == 0 && (w >> 6) & 1 == 0 && (w >> 7) & 1 == 0
  {
  }

  lemma ShiftSums(w: bv16)
    ensures (w >> 1) >> 1 == w >> 2 && (w >> 2) >> 1 == w >> 3 && (w >> 3) >> 1 == w >> 4
    ensures (w >> 4) >> 1 == w >> 5 && (w >> 5) >> 1 == w >> 6 && (w >> 6) >> 1 == w >> 7 && (w >> 7) >> 1 == w >> 8
  {
  }

  /** A byte that is clear contributes no feedback: eight bits of division only shift it out. */
  lemma HighByteShifts(w: bv16)
    requires w & 0x00FF == 0
    ensures Divide16(w, 8) == w >> 8
  {
    ClearBits(w);
    ShiftSums(w);
    hide Shift16;
    EvenShifts(w, w, 1);
    EvenShifts(w, w >> 1, 2);
    EvenShifts(w, w >> 2, 3);
    EvenShifts(w, w >> 3, 4);
    EvenShifts(w, w >> 4, 5);
    EvenShifts(w, w >> 5, 6);
    EvenShifts(w, w >> 6, 7);
    EvenShifts(w, w >> 7, 8);
  }

  /** The byte that meets the message. */
  function Met(crc: bv16, b: bv8): bv8 {
    (crc & 0xff) as bv8 ^ b
  }

  lemma SplitMet(crc: bv16, b: bv8)
    ensures Xor16(crc, b as bv16) == Xor16(crc & 0xff00, Met(crc, b) as bv16)
    ensures (crc & 0xff00) & 0x00FF == 0 && (crc & 0xff00) >> 8 == crc >> 8
  {
  }

  /** Absorbing a byte: the high byte moves down and the feedback of the low byte is added. */
  lemma Byte16Closed(crc: bv16, b: bv8)
    ensures Byte16(crc, b) == Xor16(crc >> 8, Feedback(Met(crc, b)))
  {
    hide Divide16, Feedback, Xor16, Met;
    SplitMet(crc, b);
    Divide16Linear(crc & 0xff00, Met(crc, b) as bv16, 8);
    HighByteShifts(crc & 0xff00);
    FeedbackDivides(Met(crc, b));
  }

  // ---- Whole messages ----

  function XorBytes(m: seq<bv8>, n: seq<bv8>): (x: seq<bv8>)
    requires |m| == |n|
    ensures |x| == |m|
  {
    if m == [] then [] else XorBytes(m[..|m| - 1], n[..|n| - 1]) + [Xor8(m[|m| - 1], n[|n| - 1])]
  }

  lemma Byte8Linear(c: bv8, d: bv8, b: bv8, e: bv8)
    ensures Byte8(Xor8(c, d), Xor8(b, e)) == Xor8(Byte8(c, b), Byte8(d, e))
  {
    hide Xor8, Divide8;
    Xor8Laws(c, d, Xor8(b, e));
    Xor8Laws(d, b, e);
    Xor8Laws(b, d, e);
    Xor8Laws(c, b, Xor8(d, e));
    Divide8Linear(Xor8(c, b), Xor8(d, e), 8);
  }

  /** Different remainders, or different bytes, never meet. */
  lemma Byte8Injective(c: bv8, d: bv8, b: bv8, e: bv8)
    requires Byte8(c, b) == Byte8(d, e)
    ensures Xor8(c, b) == Xor8(d, e)
    ensures c == d <==> b == e
  {
    var x, y := Xor8(c, b), Xor8(d, e);
    Divide8Linear(Xor8(x, y), 0, 8);
    Divide8Linear(x, y, 8);
    hide Divide8, Byte8, Xor8;
    assert Byte8(c, b) == Divide8(x, 8) && Byte8(d, e) == Divide8(y, 8) by { Byte8Unfolds(c, b); Byte8Unfolds(d, e); }
    Xor8Laws(Divide8(x, 8), Divide8(y, 8), 0);
    Xor8Laws(x, y, 0);
    Xor8Undo(c, b);
    Xor8Undo(d, e);
  }

  lemma Byte8Unfolds(c: bv8, b: bv8)
    ensures Byte8(c, b) == Divide8(Xor8(c, b), 8)
  {
  }

  lemma Xor8Undo(c: bv8, b: bv8)
    ensures Xor8(c, Xor8(c, b)) == b && Xor8(Xor8(c, b), b) == c
  {
  }

  /** CRC8 is linear in messages of one length. */
  lemma {:induction false} Crc8Linear(m: seq<bv8>, n: seq<bv8>)
    requires |m| == |n|
    ensures Crc8(XorBytes(m, n)) == Xor8(Crc8(m), Crc8(n))
  {
    hide Xor8, Byte8;
    if m == [] {
      Xor8Laws(0, 0, 0);
    } else {
      var x := XorBytes(m, n);
      assert x[..|x| - 1] == XorBytes(m[..|m| - 1], n[..|n| - 1]);
      Crc8Linear(m[..|m| - 1], n[..|n| - 1]);
      Byte8Linear(Crc8(m[..|m| - 1]), Crc8(n[..|n| - 1]), m[|m| - 1], n[|n| - 1]);
    }
  }

  /** A message followed by one byte divides exactly iff that byte is its checksum. */
  lemma Crc8Residue(m: seq<bv8>, c: bv8)
    ensures Crc8(m + [c]) == 0 <==> c == Crc8(m)
  {
    hide Xor8, Divide8;
    assert (m + [c])[..|m|] == m;
    Divide8Linear(Xor8(Crc8(m), c), 0, 8);
    Xor8Laws(Crc8(m), c, 0);
    Divide8Zero();
  }

  lemma Divide8Zero()
    ensures Divide8(0, 8) == 0
  {
    LowNibbles();
  }

  /** A change confined to one byte, in particular a single flipped bit, always changes the checksum. */
  lemma {:induction false} Crc8DetectsByteChange(m: seq<bv8>, i: nat, b: bv8)
    requires i < |m| && b != m[i]
    ensures Crc8(m[i := b]) != Crc8(m)
  {
    hide Byte8;
    var n, last := m[i := b], |m| - 1;
    if i == last {
      assert n[..last] == m[..last];
    } else {
      assert n[..last] == m[..last][i := b];
      Crc8DetectsByteChange(m[..last], i, b);
    }
    if Crc8(n) == Crc8(m) {
      Byte8Injective(Crc8(n[..last]), Crc8(m[..last]), n[last], m[last]);
    }
  }

  function Widen(b: bv8): bv16 { b as bv16 }

  lemma WidenXor(b: bv8, e: bv8)
    ensures Widen(Xor8(b, e)) == Xor16(Widen(b), Widen(e))
    ensures Widen(b) == Widen(e) ==> b == e
  {
  }

  lemma Byte16Unfolds(c: bv16, b: bv8)
    ensures Byte16(c, b) == Divide16(Xor16(c, Widen(b)), 8)
  {
  }

  lemma Byte16Linear(c: bv16, d: bv16, b: bv8, e: bv8)
    ensures Byte16(Xor16(c, d), Xor8(b, e)) == Xor16(Byte16(c, b), Byte16(d, e))
  {
    hide Xor8, Xor16, Divide16, Byte16, Widen;
    WidenXor(b, e);
    var x, y := Widen(b), Widen(e);
    Xor16Assoc(c, d, Xor16(x, y));
    Xor16Assoc(d, x, y);
    Xor16Assoc(x, d, y);
    Xor16Assoc(c, x, Xor16(d, y));
    Byte16Unfolds(c, b);
    Byte16Unfolds(d, e);
    Byte16Unfolds(Xor16(c, d), Xor8(b, e));
    Divide16Linear(Xor16(c, x), Xor16(d, y), 8);
  }

  lemma Xor16Undo(c: bv16, b: bv16)
    ensures Xor16(c, Xor16(c, b)) == b && Xor16(Xor16(c, b), b) == c
  {
  }

  lemma Byte16Injective(c: bv16, d: bv16, b: bv8, e: bv8)
    requires Byte16(c, b) == Byte16(d, e)
    ensures c == d <==> b == e
  {
    hide Divide16, Byte16, Xor16, Widen;
    var x, y := Xor16(c, Widen(b)), Xor16(d, Widen(e));
    Byte16Unfolds(c, b);
    Byte16Unfolds(d, e);
    Divide16Linear(Xor16(x, y), 0, 8);
    Divide16Linear(x, y, 8);
    Xor16Zero(Divide16(x, 8), Divide16(y, 8));
    Xor16Zero(x, y);
    Xor16Undo(c, Widen(b));
    Xor16Undo(d, Widen(e));
    WidenXor(b, e);
  }

  lemma {:induction false} Crc16Linear(m: seq<bv8>, n: seq<bv8>)
    requires |m| == |n|
    ensures Crc16(XorBytes(m, n)) == Xor16(Crc16(m), Crc16(n))
  {
    hide Xor8, Xor16, Byte16;
    if m == [] {
      Xor16Zero(0, 0);
    } else {
      var x := XorBytes(m, n);
      assert x[..|x| - 1] == XorBytes(m[..|m| - 1], n[..|n| - 1]);
      Crc16Linear(m[..|m| - 1], n[..|n| - 1]);
      Byte16Linear(Crc16(m[..|m| - 1]), Crc16(n[..|n| - 1]), m[|m| - 1], n[|n| - 1]);
    }
  }

  lemma {:induction false} Crc16DetectsByteChange(m: seq<bv8>, i: nat, b: bv8)
    requires i < |m| && b != m[i]
    ensures Crc16(m[i := b]) != Crc16(m)
  {
    hide Byte16;
    var n, last := m[i := b], |m| - 1;
    if i == last {
      assert n[..last] == m[..last];
    } else {
      assert n[..last] == m[..last][i := b];
      Crc16DetectsByteChange(m[..last], i, b);
    }
    if Crc16(n) == Crc16(m) {
      Byte16Injective(Crc16(n[..last]), Crc16(m[..last]), n[last], m[last]);
    }
  }

  function LowByte(c: bv16): bv8 { (c & 0xff) as bv8 }

  function HighByte(c: bv16): bv8 { (c >> 8) as bv8 }

  /** The feedback reaches the high byte unless it is absent. */
  lemma FeedbackIsWide(y: bv8)
    ensures Feedback(y) & 0xff00 == 0 <==> y == 0
    ensures Feedback(0) == 0
  {
  }

  lemma ResidueParts(c: bv16, lo: bv8, hi: bv8)
    ensures Met(c, lo) == 0 <==> lo == LowByte(c)
    ensures lo == LowByte(c) ==> (Xor16(c >> 8, Feedback(Met(c, lo))) == Widen(hi) <==> hi == HighByte(c))
  {
    hide Feedback;
    FeedbackIsWide(Met(c, lo));
  }

  lemma WideStaysWide(h: bv16, f: bv16, b: bv8)
    requires f & 0xff00 != 0 && h & 0xff00 == 0
    ensures Xor16(h, f) != Widen(b)
  {
  }

  /** A message followed by two bytes divides exactly iff they are its checksum, low byte first. */
  lemma Crc16Residue(m: seq<bv8>, lo: bv8, hi: bv8)
    ensures Crc16(m + [lo, hi]) == 0 <==> lo == LowByte(Crc16(m)) && hi == HighByte(Crc16(m))
  {
    hide Byte16, Divide16, Xor16, Feedback, Met, Widen, LowByte, HighByte;
    var c := Crc16(m);
    assert (m + [lo, hi])[..|m| + 1] == m + [lo] && (m + [lo])[..|m|] == m;
    var d := Byte16(c, lo);
    assert Crc16(m + [lo, hi]) == Byte16(d, hi);
    Byte16Closed(c, lo);
    Byte16Unfolds(d, hi);
    ZeroResidue16(Xor16(d, Widen(hi)));
    Xor16Zero(d, Widen(hi));
    FeedbackIsWide(Met(c, lo));
    ResidueParts(c, lo, hi);
    if lo != LowByte(c) {
      HighHalfIsNarrow(c);
      WideStaysWide(c >> 8, Feedback(Met(c, lo)), hi);
    }
  }

  lemma HighHalfIsNarrow(c: bv16)
    ensures (c >> 8) & 0xff00 == 0
  {
  }

  lemma ZeroResidue16(x: bv16)
    ensures Divide16(x, 8) == 0 <==> x == 0
  {
    Divide16Linear(x, 0, 8);
    LowNibbles16();
  }

  // ---- The routines ----

  lemma Crc8Step(m: seq<bv8>, i: nat)
    requires i < |m|
    ensures Crc8(m[..i + 1]) == Byte8(Crc8(m[..i]), m[i])
    ensures Crc16(m[..i + 1]) == Byte16(Crc16(m[..i]), m[i])
  {
    hide Byte8, Byte16;
    assert m[..i + 1][..i] == m[..i];
  }

  /** Table-driven CRC8. */
  method TableCrc8(addr: array<bv8>, len: nat) returns (crc: bv8)
    requires len <= addr.Length
    ensures crc == Crc8(addr[..len])
  {
    hide Byte8, DscrcTable, Xor8, Divide8;
    crc := 0;
    var n := 0;
    while n < len
      invariant n <= len && crc == Crc8(addr[..n])
    {
      TableEntry(Xor8(crc, addr[n]));
      Byte8Unfolds(crc, addr[n]);
      Crc8Step(addr[..len], n);
      assert addr[..len][..n] == addr[..n] && addr[..len][..n + 1] == addr[..n + 1];
      crc := DscrcTable(Xor8(crc, addr[n]));
      n := n + 1;
    }
  }

  function ShiftOut(b: bv8, k: nat): bv8 {
    if k == 0 then b else ShiftOut(b, k - 1) >> 1
  }

  lemma ShiftOutStep(b: bv8, k: nat)
    ensures ShiftOut(b, 0) == b && ShiftOut(b, k + 1) == ShiftOut(b, k) >> 1
  {
  }

  lemma HalvedEightTimes(b: bv8)
    ensures (((((((b >> 1) >> 1) >> 1) >> 1) >> 1) >> 1) >> 1) >> 1 == 0
  {
  }

  lemma ShiftedOut(b: bv8)
    ensures ShiftOut(b, 8) == 0
  {
    hide ShiftOut;
    ShiftOutStep(b, 0);
    ShiftOutStep(b, 1);
    ShiftOutStep(b, 2);
    ShiftOutStep(b, 3);
    ShiftOutStep(b, 4);
    ShiftOutStep(b, 5);
    ShiftOutStep(b, 6);
    ShiftOutStep(b, 7);
    HalvedEightTimes(b);
  }

  lemma MixBit(crc: bv8, inbyte: bv8)
    ensures var half := crc >> 1;
            Xor8(if (crc ^ inbyte) & 0x01 != 0 then half ^ 0x8C else half, inbyte >> 1) == Shift8(Xor8(crc, inbyte))
  {
    HalfXor8(crc, inbyte);
  }

  /** Bit-by-bit CRC8. */
  method BitwiseCrc8(addr: array<bv8>, len: nat) returns (crc: bv8)
    requires len <= addr.Length
    ensures crc == Crc8(addr[..len])
  {
    hide Byte8, Xor8, Shift8;
    crc := 0;
    var n := 0;
    while n < len
      invariant n <= len && crc == Crc8(addr[..n])
    {
      var inbyte := addr[n];
      ghost var y := Xor8(crc, inbyte);
      Byte8Unfolds(crc, inbyte);
      for k := 0 to 8
        invariant Xor8(crc, inbyte) == Divide8(y, k) && inbyte == ShiftOut(addr[n], k)
      {
        MixBit(crc, inbyte);
        var mix := (crc ^ inbyte) & 0x01;
        crc := crc >> 1;
        if mix != 0 { crc := crc ^ 0x8C; }
        inbyte := inbyte >> 1;
      }
      ShiftedOut(addr[n]);
      Xor8Laws(crc, 0, 0);
      Crc8Step(addr[..len], n);
      assert addr[..len][..n] == addr[..n] && addr[..len][..n + 1] == addr[..n + 1];
      n := n + 1;
    }
  }

  lemma MetWord(crc: bv16, b: bv8)
    ensures (b as bv16 ^ (crc & 0xff)) & 0xff == Widen(Met(crc, b))
  {
  }

  lemma WidenedNibbles(y: bv8)
    ensures (Widen(y) & 0x0F) as bv8 == y & 0x0F && (Widen(y) >> 4) as bv8 == y >> 4
    ensures (Widen(y) << 6) << 1 == Widen(y) << 7
  {
  }

  lemma Regroup(h: bv16, f: bv16, p: bv16, q: bv16)
    ensures Xor16(Xor16(Xor16(h, f), p), q) == Xor16(h, Xor16(Xor16(f, p), q))
    ensures Xor16(h, 0) == h
  {
    hide Xor16;
    Xor16Zero(h, 0);
    Xor16Assoc(h, f, p);
    Xor16Assoc(h, Xor16(f, p), q);
  }

  /** Whether a byte, held in a 16-bit variable, has odd parity: the parities of its nibbles differ. */
  predicate OddByte(w: bv16)
    requires w < 0x100
  {
    OddParity((w & 0x0F) as bv8) ^ OddParity((w >> 4) as bv8) != 0
  }

  /** The bytes of the two forms have the same nibbles. */
  lemma ParityOfMet(y: bv8, w: bv16)
    requires w == Widen(y)
    ensures w < 0x100 && (OddByte(w) <==> OddParity(y & 0x0F) ^ OddParity(y >> 4) != 0)
  {
    hide OddParity;
    WidenedNibbles(y);
  }

  lemma FeedbackUnfolds(y: bv8, odd: bool)
    requires odd <==> OddParity(y & 0x0F) ^ OddParity(y >> 4) != 0
    ensures Feedback(y) == Xor16(Xor16(if odd then 0xC001 else 0, Widen(y) << 6), Widen(y) << 7)
  {
    hide OddParity, Xor16;
  }

  lemma FeedbackOfMet(y: bv8, w: bv16)
    requires w == Widen(y)
    ensures w < 0x100
    ensures Feedback(y) == Xor16(Xor16(if OddByte(w) then 0xC001 else 0, w << 6), (w << 6) << 1)
  {
    hide OddParity, Xor16, OddByte, Feedback, Widen;
    ParityOfMet(y, w);
    WidenedNibbles(y);
    FeedbackUnfolds(y, OddByte(w));
  }

  /** One byte of CRC16 by parity. */
  method AbsorbByParity(seed: bv16, b: bv8) returns (crc: bv16)
    ensures crc == Byte16(seed, b)
  {
    hide Byte16, Met, OddByte, Widen, Xor16, Feedback;
    Byte16Closed(seed, b);
    MetWord(seed, b);
    ghost var w := Widen(Met(seed, b));
    FeedbackOfMet(Met(seed, b), w);
    Regroup(seed >> 8, 0xC001, w << 6, (w << 6) << 1);
    Regroup(seed >> 8, 0, w << 6, (w << 6) << 1);
    var cdata := (b as bv16 ^ (seed & 0xff)) & 0xff;
    crc := seed >> 8;
    if OddByte(cdata) {
      crc := Xor16(crc, 0xC001);
    }
    cdata := cdata << 6;
    crc := Xor16(crc, cdata);
    cdata := cdata << 1;
    crc := Xor16(crc, cdata);
  }

  /** CRC16 by byte parity. */
  method ParityCrc16(input: array<bv8>, len: nat) returns (crc: bv16)
    requires len <= input.Length
    ensures crc == Crc16(input[..len])
  {
    hide Byte16;
    crc := 0;
    for i := 0 to len
      invariant crc == Crc16(input[..i])
    {
      Crc8Step(input[..len], i);
      assert input[..len][..i] == input[..i] && input[..len][..i + 1] == input[..i + 1];
      crc := AbsorbByParity(crc, input[i]);
    }
  }

  function Not8(x: bv8): bv8 { !x }

  function Not16(x: bv16): bv16 { !x }

  /** The 16-bit value is transmitted as these two bytes, low byte first. */
  predicate SentAs(crc: bv16, a: bv8, b: bv8) {
    (crc & 0xFF) as bv8 == a && (crc >> 8) as bv8 == b
  }

  lemma Complements(c: bv16, a: bv8, b: bv8)
    ensures SentAs(Not16(c), a, b) <==> Not8(a) == LowByte(c) && Not8(b) == HighByte(c)
  {
  }

  /** The check accepts exactly when message and un-inverted trailer divide exactly. */
  method CheckCrc16(input: array<bv8>, len: nat, inverted_crc: array<bv8>) returns (ok: bool)
    requires len <= input.Length && inverted_crc.Length >= 2
    ensures ok <==> Crc16(input[..len] + [Not8(inverted_crc[0]), Not8(inverted_crc[1])]) == 0
  {
    hide LowByte, HighByte, Not8, Not16, SentAs, Crc16;
    var crc := ParityCrc16(input, len);
    Complements(crc, inverted_crc[0], inverted_crc[1]);
    Crc16Residue(input[..len], Not8(inverted_crc[0]), Not8(inverted_crc[1]));
    crc := Not16(crc);
    ok := SentAs(crc, inverted_crc[0], inverted_crc[1]);
  }
}
