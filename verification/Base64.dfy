/** Base64 encoding and decoding (section 4 of RFC 4648), with a decoder that skips foreign bytes. */
module Base64 {
  import opened Bytes
  import opened Wrappers

  const UPPER: string := "ABCDEFGHIJKLMNOPQRSTUVWXYZ"
  const LOWER: string := "abcdefghijklmnopqrstuvwxyz"
  const DIGITS: string := "0123456789"
  const TABLE: string := UPPER + LOWER + DIGITS + "+/"

  const PAD := '='

  /** Text consists of unsigned chars. */
  ghost predicate Octets(s: string) {
    forall k | 0 <= k < |s| :: s[k] as int < 256
  }

  // ---- The alphabet ----

  /** The i-th character of the alphabet in ASCII. */
  function Code(i: nat): int {
    if i < 26 then i + 65 else if i < 52 then i + 71 else if i < 62 then i - 4 else if i == 62 then 43 else 47
  }

  lemma UpperAt(i: nat)
    requires i < 26
    ensures UPPER[i] as int == i + 65
  {
  }

  lemma LowerAt(i: nat)
    requires i < 26
    ensures LOWER[i] as int == i + 97
  {
  }

  lemma DigitAt(i: nat)
    requires i < 10
    ensures DIGITS[i] as int == i + 48
  {
  }

  lemma TableAt(i: nat)
    requires i < 64
    ensures |TABLE| == 64 && TABLE[i] as int == Code(i)
  {
    if i < 26 {
      assert TABLE[i] == UPPER[i];
      UpperAt(i);
    } else if i < 52 {
      assert TABLE[i] == LOWER[i - 26];
      LowerAt(i - 26);
    } else if i < 62 {
      assert TABLE[i] == DIGITS[i - 52];
      DigitAt(i - 52);
    }
  }

  function Letter(i: nat): (c: char)
    requires i < 64
  {
    TableAt(i);
    TABLE[i]
  }

  lemma LetterCode(i: nat)
    requires i < 64
    ensures Letter(i) as int == Code(i) < 256 && Letter(i) != PAD
  {
    TableAt(i);
  }

  lemma LettersDiffer(i: nat, j: nat)
    requires i < j < 64
    ensures Letter(i) != Letter(j)
  {
    hide Letter;
    LetterCode(i);
    LetterCode(j);
  }

  /** A decoding table entry after the first k letters were entered; 0x80 marks a foreign byte. */
  function Entry(c: char, k: nat): bv8
    requires k <= 64
  {
    if k == 0 then 0x80 else if Letter(k - 1) == c then Byte(k - 1) else Entry(c, k - 1)
  }

  /** The decoding table. */
  function Value(c: char): bv8 {
    if c == PAD then 0 else Entry(c, 64)
  }

  predicate Foreign(c: char) {
    Value(c) == 0x80
  }

  function Symbol(v: bv8): char
    requires Num(v) < 64
  {
    Letter(Num(v))
  }

  lemma {:induction false} EntryOfLetter(i: nat, k: nat)
    requires i < k <= 64
    ensures Entry(Letter(i), k) == Byte(i)
  {
    hide Letter, Byte;
    if i < k - 1 {
      LettersDiffer(i, k - 1);
      EntryOfLetter(i, k - 1);
    }
  }

  lemma NumFits(b: bv8)
    ensures Num(b) < 64 <==> b & 0xC0 == 0
    ensures Num(b) < 64 ==> b != 0x80
  {
  }

  lemma ByteOfNum(b: bv8)
    ensures Byte(Num(b)) == b
  {
    hide Byte, Num;
    ByteRoundTrip(Num(b));
    NumInjective(Byte(Num(b)), b);
  }

  lemma NumInjective(a: bv8, b: bv8)
    requires Num(a) == Num(b)
    ensures a == b
  {
  }

  /** Decoding a symbol of the alphabet gives back its value. */
  lemma ValueOfSymbol(v: bv8)
    requires Num(v) < 64
    ensures Value(Symbol(v)) == v && !Foreign(Symbol(v)) && Symbol(v) != PAD
  {
    hide Letter, Byte, Num;
    LetterCode(Num(v));
    EntryOfLetter(Num(v), 64);
    ByteOfNum(v);
    NumFits(v);
  }

  lemma {:induction false} LetterOfEntry(c: char, k: nat)
    requires k <= 64
    ensures Entry(c, k) == 0x80 || (Num(Entry(c, k)) < k && Letter(Num(Entry(c, k))) == c)
  {
    hide Letter, Byte, Num;
    if k > 0 {
      LetterOfEntry(c, k - 1);
      ByteRoundTrip(k - 1);
    }
  }

  /** What is neither foreign nor padding is the symbol of its value. */
  lemma SymbolOfValue(c: char)
    requires !Foreign(c) && c != PAD
    ensures Num(Value(c)) < 64 && Symbol(Value(c)) == c
  {
    hide Letter, Num;
    LetterOfEntry(c, 64);
  }

  /** Foreign are all characters but the padding and the 64 letters. */
  lemma ForeignIff(c: char)
    ensures Foreign(c) <==> c != '=' && forall i: nat | i < 64 :: c as int != Code(i)
  {
    hide Letter, Byte, Num;
    if c != PAD && exists i: nat :: i < 64 && c as int == Code(i) {
      var i: nat :| i < 64 && c as int == Code(i);
      LetterCode(i);
      EntryOfLetter(i, 64);
      ByteRoundTrip(i);
      NumFits(Byte(i));
    } else if c != PAD {
      LetterOfEntry(c, 64);
      if Entry(c, 64) != 0x80 { LetterCode(Num(Entry(c, 64))); }
    }
  }

  // ---- Regrouping three bytes as four 6-bit values ----

  function First(a: bv8): (v: bv8)
    ensures Num(v) < 64
  {
    NumFits(a >> 2);
    a >> 2
  }

  function Second(a: bv8, b: bv8): (v: bv8)
    ensures Num(v) < 64
  {
    NumFits(((a & 0x03) << 4) | (b >> 4));
    ((a & 0x03) << 4) | (b >> 4)
  }

  function Third(b: bv8, c: bv8): (v: bv8)
    ensures Num(v) < 64
  {
    NumFits(((b & 0x0f) << 2) | (c >> 6));
    ((b & 0x0f) << 2) | (c >> 6)
  }

  function Fourth(c: bv8): (v: bv8)
    ensures Num(v) < 64
  {
    NumFits(c & 0x3f);
    c & 0x3f
  }

  function Join0(v0: bv8, v1: bv8): bv8 { (v0 << 2) | (v1 >> 4) }

  function Join1(v1: bv8, v2: bv8): bv8 { (v1 << 4) | (v2 >> 2) }

  function Join2(v2: bv8, v3: bv8): bv8 { (v2 << 6) | v3 }

  lemma JoinSplit(a: bv8, b: bv8, c: bv8)
    ensures Join0(First(a), Second(a, b)) == a
    ensures Join1(Second(a, b), Third(b, c)) == b
    ensures Join2(Third(b, c), Fourth(c)) == c
  {
  }

  lemma SplitJoin(v0: bv8, v1: bv8, v2: bv8, v3: bv8)
    requires Num(v0) < 64 && Num(v1) < 64 && Num(v2) < 64 && Num(v3) < 64
    ensures First(Join0(v0, v1)) == v0
    ensures Second(Join0(v0, v1), Join1(v1, v2)) == v1
    ensures Third(Join1(v1, v2), Join2(v2, v3)) == v2
    ensures Fourth(Join2(v2, v3)) == v3
  {
    NumFits(v0);
    NumFits(v1);
    NumFits(v2);
    NumFits(v3);
  }

  // ---- Encoding ----

  function Quad(a: bv8, b: bv8, c: bv8): string {
    [Symbol(First(a)), Symbol(Second(a, b)), Symbol(Third(b, c)), Symbol(Fourth(c))]
  }

  function Full(x: Bytes): (s: string)
    requires |x| % 3 == 0
    ensures |s| == |x| / 3 * 4
  {
    if x == [] then [] else Full(x[..|x| - 3]) + Quad(x[|x| - 3], x[|x| - 2], x[|x| - 1])
  }

  function Tail(x: Bytes): string
    requires |x| < 3
  {
    if |x| == 0 then []
    else if |x| == 1 then [Symbol(First(x[0])), Symbol(Second(x[0], 0)), PAD, PAD]
    else [Symbol(First(x[0])), Symbol(Second(x[0], x[1])), Symbol(Third(x[1], 0)), PAD]
  }

  function Encode(x: Bytes): string {
    var n := |x| - |x| % 3;
    Full(x[..n]) + Tail(x[n..])
  }

  lemma LastBits(a: bv8)
    ensures Second(a, 0) == (a & 0x03) << 4 && Third(a, 0) == (a & 0x0f) << 2
  {
  }

  lemma FullGrows(x: Bytes, n: nat)
    requires n % 3 == 0 && n + 3 <= |x|
    ensures Full(x[..n + 3]) == Full(x[..n]) + Quad(x[n], x[n + 1], x[n + 2])
  {
    assert x[..n + 3][..n] == x[..n];
  }

  /** The allocation: four thirds and a reserve for line feeds, which are never written, and the NUL. */
  function BufferSize(len: nat): nat {
    var olen := len * 4 / 3 + 4;
    olen + olen / 72 + 1
  }

  lemma RoomForLastGroup(len: nat)
    ensures 3 * BufferSize(len) >= 4 * len + 13
  {
  }

  /** base64_encode: every write is inside the buffer it allocates, and the text ends in NUL. */
  method Base64Encode(src: Bytes) returns (out: array<char>, out_len: nat)
    ensures fresh(out) && out.Length == BufferSize(|src|)
    ensures out_len < out.Length && out[..out_len] == Encode(src) && out[out_len] == '\0'
  {
    hide Symbol, Num, First, Second, Third, Fourth, BufferSize, Full, Tail;
    out := new char[BufferSize(|src|)](_ => '\0');
    RoomForLastGroup(|src|);
    var next, pos := 0, 0;
    EmptyText();
    while |src| - next >= 3
      invariant next <= |src| && next % 3 == 0 && 3 * pos == 4 * next
      invariant out[..pos] == Full(src[..next])
    {
      var a, b, c := src[next], src[next + 1], src[next + 2];
      Copy(out, pos, [Symbol(First(a)), Symbol(Second(a, b)), Symbol(Third(b, c)), Symbol(Fourth(c))]);
      FullGrows(src, next);
      next, pos := next + 3, pos + 4;
    }
    if |src| - next > 0 {
      var last := LastGroup(src[next..]);
      Copy(out, pos, last);
      pos := pos + 4;
    }
    out[pos] := '\0';
    out_len := pos;
    EncodeSplits(src, next);
  }

  lemma EncodeSplits(x: Bytes, n: nat)
    requires n % 3 == 0 && n <= |x| < n + 3
    ensures Encode(x) == Full(x[..n]) + Tail(x[n..])
    ensures n == |x| ==> Encode(x) == Full(x[..n])
  {
    assert n == |x| - |x| % 3;
  }

  lemma EmptyText()
    ensures Full([]) == [] && Tail([]) == []
  {
  }

  /** The padded group for the one or two bytes left over. */
  method LastGroup(rest: Bytes) returns (group: string)
    requires 0 < |rest| < 3
    ensures |group| == 4 && group == Tail(rest)
  {
    hide Symbol, Num, First, Second, Third, Fourth;
    group := [Symbol(First(rest[0]))];
    LastBits(rest[0]);
    if |rest| == 1 {
      group := group + [Symbol((rest[0] & 0x03) << 4)];
      group := group + [PAD];
    } else {
      LastBits(rest[1]);
      group := group + [Symbol(Second(rest[0], rest[1]))];
      group := group + [Symbol((rest[1] & 0x0f) << 2)];
    }
    group := group + [PAD];
  }

  // ---- Decoding ----

  /** The text without foreign bytes. */
  function Kept(s: string): string {
    if s == [] then [] else Kept(s[..|s| - 1]) + if Foreign(s[|s| - 1]) then [] else [s[|s| - 1]]
  }

  function Triple(q: string): Bytes
    requires |q| == 4
  {
    [Join0(Value(q[0]), Value(q[1])), Join1(Value(q[1]), Value(q[2])), Join2(Value(q[2]), Value(q[3]))]
  }

  function Blocks(k: string): (x: Bytes)
    requires |k| % 4 == 0
    ensures |x| == |k| / 4 * 3
  {
    if k == [] then [] else Blocks(k[..|k| - 4]) + Triple(k[|k| - 4..])
  }

  function Padding(k: string): nat
    requires |k| >= 4
  {
    if k[|k| - 2] == PAD then 2 else if k[|k| - 1] == PAD then 1 else 0
  }

  /** All complete groups without what padding discards. */
  function Unpadded(k: string): Bytes
    requires k != [] && |k| % 4 == 0
  {
    var x := Blocks(k);
    x[..|x| - Padding(k)]
  }

  function Decode(s: string): Option<Bytes> {
    var k := Kept(s);
    if |k| == 0 || |k| % 4 != 0 then None else Some(Unpadded(k))
  }

  ghost predicate IsTable(dtable: seq<bv8>) {
    |dtable| == 256 && forall c: nat | c < 256 :: dtable[c] == Value(c as char)
  }

  /** The decoding table, built as the decoder builds it. */
  method BuildTable() returns (dtable: seq<bv8>)
    ensures IsTable(dtable)
  {
    hide Letter, Byte;
    var table := new bv8[256](_ => 0x80);
    for i := 0 to 64
      invariant forall c: nat | c < 256 :: table[c] == Entry(c as char, i)
    {
      LetterCode(i);
      table[Letter(i) as int] := Byte(i);
    }
    table[PAD as int] := 0;
    return table[..];
  }

  lemma {:induction false} KeptGrows(s: string, i: nat)
    requires i <= |s|
    ensures |Kept(s[..i])| <= |Kept(s)|
  {
    if i < |s| {
      assert s[..|s| - 1][..i] == s[..i];
      KeptGrows(s[..|s| - 1], i);
    } else {
      assert s[..i] == s;
    }
  }

  lemma BlocksGrow(k: string, q: string)
    requires |k| % 4 == 0 && |q| == 4
    ensures |k + q| % 4 == 0 && |Triple(q)| == 3
    ensures Blocks(k + q) == Blocks(k) + Triple(q)
  {
    assert (k + q)[..|k|] == k && (k + q)[|k|..] == q;
  }

  method CountKept(src: string, dtable: seq<bv8>) returns (count: nat)
    requires Octets(src) && IsTable(dtable)
    ensures count == |Kept(src)|
  {
    hide Value;
    count := 0;
    for i := 0 to |src|
      invariant count == |Kept(src[..i])|
    {
      assert src[..i + 1][..i] == src[..i];
      if dtable[src[i] as int] != 0x80 { count := count + 1; }
    }
    assert src[..|src|] == src;
  }

  /** The kept text is some whole groups and a part, which sits in the two four-cell buffers; after a whole group
      the buffers still hold its characters. */
  ghost predicate Held(k: string, done: string, part: string, held: string, block: Bytes) {
    && k == done + part && |done| % 4 == 0 && |part| < 4
    && |held| == |block| == 4 && held[..|part|] == part
    && (forall j: nat | j < |part| :: block[j] == Value(part[j]))
    && (part == [] && done != [] ==> held == done[|done| - 4..])
  }

  lemma Collect(k: string, done: string, part: string, held: string, block: Bytes, c: char)
    requires Held(k, done, part, held, block)
    ensures var held', block', part' := held[|part| := c], block[|part| := Value(c)], part + [c];
            if |part'| < 4 then Held(k + [c], done, part', held', block')
            else Held(k + [c], done + part', [], held', block') && GroupBytes(block') == Triple(part')
  {
    hide Value, Join0, Join1, Join2;
    var held', block', part' := held[|part| := c], block[|part| := Value(c)], part + [c];
    assert k + [c] == done + part';
    assert held'[..|part'|] == part';
    if |part'| == 4 {
      assert held' == part';
      assert k + [c] == (done + part') + [];
    }
  }

  function GroupBytes(block: Bytes): (x: Bytes)
    requires |block| == 4
    ensures |x| == 3
  {
    [Join0(block[0], block[1]), Join1(block[1], block[2]), Join2(block[2], block[3])]
  }

  /** The main loop: collects kept characters in fours and writes each four as three bytes. Also yields the last
      two characters collected. */
  method WriteBlocks(src: string, dtable: seq<bv8>, out: array<bv8>) returns (pos: nat, third: char, fourth: char)
    requires Octets(src) && IsTable(dtable)
    requires |Kept(src)| % 4 == 0 && out.Length == |Kept(src)| / 4 * 3
    modifies out
    ensures pos == out.Length && out[..] == Blocks(Kept(src))
    ensures Kept(src) != [] ==> third == Kept(src)[|Kept(src)| - 2] && fourth == Kept(src)[|Kept(src)| - 1]
  {
    hide Value, Blocks, GroupBytes, Held, Triple, Kept, IsTable, Octets;
    var held: string, block: Bytes := ['\0', '\0', '\0', '\0'], [0, 0, 0, 0];
    var count := 0;
    pos := 0;
    ghost var groups: nat, done: string, part: string := 0, "", "";
    Start(held, block);
    for i := 0 to |src|
      invariant Held(Kept(src[..i]), done, part, held, block) && |held| == |block| == 4
      invariant |done| == 4 * groups && |part| == count < 4 && |Kept(src[..i])| == 4 * groups + count
      invariant pos == 3 * groups <= out.Length && out[..pos] == Blocks(done)
    {
      KeptStep(src, i);
      LookUp(dtable, src, i);
      var tmp := dtable[src[i] as int];
      if tmp != 0x80 {
        KeptGrows(src, i + 1);
        Collect(Kept(src[..i]), done, part, held, block, src[i]);
        held, block := held[count := src[i]], block[count := tmp];
        count := count + 1;
        part := part + [src[i]];
        if count == 4 {
          BlocksGrow(done, part);
          Copy(out, pos, GroupBytes(block));
          pos := pos + 3;
          count := 0;
          groups, done, part := groups + 1, done + part, [];
        }
      }
    }
    assert src[..|src|] == src;
    Finished(Kept(src), done, part, held, block);
    third, fourth := held[2], held[3];
  }

  lemma LookUp(dtable: seq<bv8>, s: string, i: nat)
    requires Octets(s) && IsTable(dtable) && i < |s|
    ensures |dtable| == 256 && s[i] as int < 256 && dtable[s[i] as int] == Value(s[i])
  {
    hide Value;
  }

  lemma KeptStep(s: string, i: nat)
    requires i < |s|
    ensures Kept(s[..i + 1]) == if Foreign(s[i]) then Kept(s[..i]) else Kept(s[..i]) + [s[i]]
  {
    assert s[..i + 1][..i] == s[..i];
  }

  lemma Start(held: string, block: Bytes)
    requires |held| == |block| == 4
    ensures Kept([]) == [] && Held([], [], [], held, block) && Blocks([]) == []
  {
  }

  lemma Finished(k: string, done: string, part: string, held: string, block: Bytes)
    requires Held(k, done, part, held, block) && |k| % 4 == 0
    ensures part == [] && k == done
    ensures k != [] ==> held[2] == k[|k| - 2] && held[3] == k[|k| - 1]
  {
  }

  /** base64_decode: NULL, or a buffer for all complete groups and the length without padding. */
  method Base64Decode(src: string) returns (out: array?<bv8>, out_len: nat)
    requires Octets(src)
    ensures out == null <==> Kept(src) == [] || |Kept(src)| % 4 != 0
    ensures out == null <==> Decode(src) == None
    ensures out != null ==> fresh(out) && out.Length == |Kept(src)| / 4 * 3
    ensures out != null ==> out_len <= out.Length && Decode(src) == Some(out[..out_len])
  {
    hide Blocks, Kept;
    var dtable := BuildTable();
    var count := CountKept(src, dtable);
    if count == 0 || count % 4 != 0 { return null, 0; }
    var buffer := new bv8[count / 4 * 3](_ => 0);
    var pos, third, fourth := WriteBlocks(src, dtable, buffer);
    if pos > 0 {
      if third == PAD { pos := pos - 2; } else if fourth == PAD { pos := pos - 1; }
    }
    out, out_len := buffer, pos;
  }
}
