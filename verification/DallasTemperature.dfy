/** The sensor layer over the 1-Wire bus: enumeration, lookup by index and the alarm search. */
module DallasTemperature {
  import opened RomOrder
  import opened RomBytes
  import opened OneWireBus
  import Crc
  import opened Arithmetic
  import opened Wrappers

  /** What the j-th of a run of search calls must answer: the codes in order, one miss, and around again;
      nothing but misses when some code has a zero first byte. */
  ghost function SearchAnswer(S: set<Code>, j: nat): Option<Code>
  {
    var n := |Order(S)|;
    if AllHaveFamily(S) && j % (n + 1) < n then Some(Order(S)[j % (n + 1)]) else None
  }

  /** The reported buffer carries the expected code. */
  ghost predicate Reports(answer: Option<seq<bv8>>, expected: Option<Code>)
  {
    match answer
    case None => expected.None?
    case Some(rom) => |rom| == 8 && expected == Some(Bits(rom))
  }

  lemma NextPhase(j: nat, n: nat)
    ensures (j + 1) % (n + 1) == if j % (n + 1) < n then j % (n + 1) + 1 else 0
  {
    var q, k := j / (n + 1), j % (n + 1);
    assert j == q * (n + 1) + k;
    if k < n {
      assert j + 1 == q * (n + 1) + (k + 1);
      DivModUnique(j + 1, n + 1, q, k + 1);
    } else {
      assert j + 1 == (q + 1) * (n + 1);
      DivModUnique(j + 1, n + 1, q + 1, 0);
    }
  }

  /** Any client that resets the search and keeps calling it sees the listing, a miss, the listing again, ... */
  method SearchRun(wire: OneWire, calls: nat) returns (answers: seq<Option<seq<bv8>>>)
    requires wire.Valid()
    modifies wire, wire.ROM_NO
    ensures |answers| == calls
    ensures forall j: nat | j < calls :: Reports(answers[j], SearchAnswer(wire.present, j))
  {
    hide OneWire.AtPosition, Order, Bits, AllHaveFamily;
    wire.ResetSearch();
    answers := [];
    ghost var n := |Order(wire.present)|;
    ghost var k := 0;
    var newAddr := new bv8[8];
    for j := 0 to calls
      invariant wire.Valid() && wire.AtPosition(k)
      invariant k == (if AllHaveFamily(wire.present) then j % (n + 1) else 0)
      invariant |answers| == j
      invariant forall i: nat | i < j :: Reports(answers[i], SearchAnswer(wire.present, i))
    {
      NextPhase(j, n);
      var found := wire.Search(newAddr, k);
      answers := answers + [if found then Some(newAddr[..]) else None];
      assert Reports(answers[j], SearchAnswer(wire.present, j));
      k := if found then k + 1 else 0;
    }
  }

  /** All eight bytes of the code together divide exactly: its last byte is the checksum of the other seven. */
  ghost predicate ValidCode(c: Code)
  {
    exists rom: seq<bv8> :: |rom| == 8 && Bits(rom) == c && Crc.Crc8(rom) == 0
  }

  lemma ResidueOfBuffer(rom: seq<bv8>)
    requires |rom| == 8
    ensures Crc.Crc8(rom[..7]) == rom[7] <==> Crc.Crc8(rom) == 0
  {
    hide Crc.Crc8;
    assert rom == rom[..7] + [rom[7]];
    Crc.Crc8Residue(rom[..7], rom[7]);
  }

  /** Comparing the last byte with the checksum of the first seven is testing the code. */
  lemma ValidityOfBuffer(rom: seq<bv8>)
    requires |rom| == 8
    ensures Crc.Crc8(rom[..7]) == rom[7] <==> ValidCode(Bits(rom))
  {
    hide Bits, Crc.Crc8;
    ResidueOfBuffer(rom);
    if ValidCode(Bits(rom)) {
      var rom': seq<bv8> :| |rom'| == 8 && Bits(rom') == Bits(rom) && Crc.Crc8(rom') == 0;
      BitsInjective(rom, rom');
    }
  }

  ghost function CountValid(o: seq<Code>, n: nat): nat
    requires n <= |o|
  {
    if n == 0 then 0 else CountValid(o, n - 1) + if ValidCode(o[n - 1]) then 1 else 0
  }

  ghost function ValidOnes(S: set<Code>): set<Code> {
    set c | c in S && ValidCode(c)
  }

  ghost function Prefix(o: seq<Code>, n: nat): set<Code>
    requires n <= |o|
  {
    set i | 0 <= i < n :: o[i]
  }

  lemma OneMoreValid(before: set<Code>, c: Code)
    requires c !in before
    ensures |ValidOnes(before + {c})| == |ValidOnes(before)| + if ValidCode(c) then 1 else 0
  {
    hide ValidCode;
    assert ValidOnes(before + {c}) == ValidOnes(before) + if ValidCode(c) then {c} else {};
  }

  lemma {:induction false} CountIsCardinality(o: seq<Code>, n: nat)
    requires n <= |o| && Increasing(o)
    ensures CountValid(o, n) == |ValidOnes(Prefix(o, n))|
  {
    hide ValidCode, Increasing, ValidOnes;
    if n == 0 {
      NoneValid();
      assert Prefix(o, 0) == {};
    } else {
      CountIsCardinality(o, n - 1);
      NotBefore(o, n - 1);
      assert o[n - 1] !in Prefix(o, n - 1);
      assert Prefix(o, n) == Prefix(o, n - 1) + {o[n - 1]};
      OneMoreValid(Prefix(o, n - 1), o[n - 1]);
    }
  }

  lemma NoneValid()
    ensures ValidOnes({}) == {}
  {
  }

  lemma NotBefore(o: seq<Code>, n: nat)
    requires n < |o| && Increasing(o)
    ensures forall k | 0 <= k < n :: o[k] != o[n]
  {
    forall k | 0 <= k < n ensures o[k] != o[n] {
      assert Less(o[k], o[n]);
      if o[k] == o[n] { LessAsymmetric(o[k], o[n]); }
    }
  }

  /** Counting along the listing counts the valid codes. */
  lemma CountOfListing(S: set<Code>)
    ensures CountValid(Order(S), |Order(S)|) == |ValidOnes(S)|
  {
    hide Order, ValidOnes, Increasing;
    OrderIsSortedListing(S);
    CountIsCardinality(Order(S), |Order(S)|);
    assert Prefix(Order(S), |Order(S)|) == S;
  }

  /** The index-th device of the listing, with its address, iff there is one and it has a valid checksum. */
  ghost predicate LookedUp(S: set<Code>, index: nat, found: bool, address: seq<bv8>)
    requires |address| == 8
  {
    && (found <==> AllHaveFamily(S) && index < |Order(S)| && ValidCode(Order(S)[index]))
    && (found ==> Bits(address) == Order(S)[index])
  }

  lemma FoundAt(S: set<Code>, index: nat, rom: seq<bv8>)
    requires |rom| == 8 && AllHaveFamily(S) && index < |Order(S)|
    requires Bits(rom) == Order(S)[index] && ValidCode(Bits(rom))
    ensures LookedUp(S, index, true, rom)
  {
    hide Order, Bits, AllHaveFamily, ValidCode;
  }

  lemma NotFound(S: set<Code>, index: nat, address: seq<bv8>)
    requires |address| == 8
    requires !AllHaveFamily(S) || index >= |Order(S)| || !ValidCode(Order(S)[index])
    ensures LookedUp(S, index, false, address)
  {
    hide Order, Bits, AllHaveFamily, ValidCode;
  }

  class DallasTemperature {
    const wire: OneWire
    var devices: nat
    const alarmSearchAddress: array<bv8>
    var alarmSearchJunction: int
    var alarmSearchExhausted: bool

    ghost predicate Valid()
      reads this, wire, wire.ROM_NO
    {
      wire.Valid() && alarmSearchAddress.Length == 8 && alarmSearchAddress != wire.ROM_NO
    }

    constructor (wire: OneWire)
      requires wire.Valid()
      ensures Valid() && this.wire == wire && fresh(alarmSearchAddress)
    {
      this.wire := wire;
      devices := 0;
      alarmSearchAddress := new bv8[8];
      alarmSearchJunction, alarmSearchExhausted := 0, false;
    }

    /** validAddress. */
    method ValidAddress(deviceAddress: array<bv8>) returns (valid: bool)
      requires deviceAddress.Length == 8
      ensures valid <==> ValidCode(Bits(deviceAddress[..]))
    {
      hide Bits, ValidCode;
      ValidityOfBuffer(deviceAddress[..]);
      var crc := Crc.TableCrc8(deviceAddress, 7);
      assert deviceAddress[..][..7] == deviceAddress[..7];
      valid := crc == deviceAddress[7];
    }

    /** Counts, in a byte, the devices whose code carries a valid checksum. */
    method Begin()
      requires Valid()
      modifies this`devices, wire, wire.ROM_NO
      ensures Valid()
      ensures devices == if AllHaveFamily(wire.present) then |ValidOnes(wire.present)| % 256 else 0
    {
      hide OneWire.AtPosition, Order, Bits, AllHaveFamily, ValidCode, ValidOnes;
      CountOfListing(wire.present);
      var deviceAddress := new bv8[8];
      wire.ResetSearch();
      devices := 0;
      ghost var o := Order(wire.present);
      ghost var k := 0;
      var more := wire.Search(deviceAddress, k);
      while more
        invariant Valid() && deviceAddress.Length == 8 && deviceAddress != wire.ROM_NO
        invariant deviceAddress != alarmSearchAddress && fresh(deviceAddress)
        invariant k <= |o| && (more <==> AllHaveFamily(wire.present) && k < |o|)
        invariant AllHaveFamily(wire.present) || k == 0
        invariant devices == CountValid(o, k) % 256
        invariant more ==> wire.AtPosition(k + 1) && Bits(deviceAddress[..]) == o[k]
        decreases |o| - k
      {
        var valid := ValidAddress(deviceAddress);
        if valid {
          devices := (devices + 1) % 256;
        }
        k := k + 1;
        more := wire.Search(deviceAddress, k);
      }
    }

    /** Looks up the index-th device of the listing, which must carry a valid checksum. */
    method GetAddress(deviceAddress: array<bv8>, index: nat) returns (found: bool)
      requires Valid() && deviceAddress.Length == 8 && deviceAddress != wire.ROM_NO && index < 256
      modifies wire, wire.ROM_NO, deviceAddress
      ensures index < 255 || |Order(wire.present)| <= 256 ==> LookedUp(wire.present, index, found, deviceAddress[..])
    {
      hide OneWire.AtPosition, Order, Bits, AllHaveFamily, ValidCode, LookedUp;
      var depth := 0;
      wire.ResetSearch();
      ghost var o := Order(wire.present);
      ghost var k := 0;
      while depth <= index
        invariant wire.Valid() && wire.AtPosition(k) && k <= |o|
        invariant k == 0 || AllHaveFamily(wire.present)
        invariant (k < 256 ==> depth == k) && (index < 255 ==> k <= index + 1)
        invariant k > index ==> !ValidCode(o[index])
        decreases |o| - k
      {
        var more := wire.Search(deviceAddress, k);
        if !more { break; }
        var valid := false;
        if depth == index { valid := ValidAddress(deviceAddress); }
        if depth == index && valid {
          if index < 255 || |o| <= 256 { FoundAt(wire.present, index, deviceAddress[..]); }
          return true;
        }
        depth := if depth == 255 then 0 else depth + 1;
        k := k + 1;
      }
      if index < 255 || |o| <= 256 { NotFound(wire.present, index, deviceAddress[..]); }
      return false;
    }

    /** The stored alarm position is "k codes of Order(alarming) already returned". */
    ghost predicate AtAlarm(k: nat)
      requires Valid()
      reads this, alarmSearchAddress, wire, wire.ROM_NO
    {
      k <= |Order(wire.alarming)| &&
      if k == 0 then alarmSearchJunction == -1 && !alarmSearchExhausted
      else
        var r: Code := Order(wire.alarming)[k - 1];
        && Bits(alarmSearchAddress[..]) == r
        && alarmSearchJunction == Pending(wire.alarming, r, 64)
        && (alarmSearchExhausted <==> k == |Order(wire.alarming)|)
    }

    /** Restarts the alarm search. Only the first seven address bytes are cleared; the search does not depend on
        the stored address until it has written all eight. */
    method ResetAlarmSearch()
      requires Valid()
      modifies this`alarmSearchJunction, this`alarmSearchExhausted, alarmSearchAddress
      ensures Valid() && AtAlarm(0)
    {
      alarmSearchJunction, alarmSearchExhausted := -1, false;
      for i := 0 to 7
        modifies alarmSearchAddress
      {
        alarmSearchAddress[i] := 0;
      }
    }

    /** Takes one fork: repeat the stored choice before the old junction, take 1 at it, 0 beyond it. */
    method AlarmFork(i: nat, last: int, pending: bool) returns (a: bool, lastJunction: int, done: bool)
      requires Valid() && i < 64
      modifies this`alarmSearchJunction
      ensures var stored := Bits(alarmSearchAddress[..])[i];
              && a == (if i == old(alarmSearchJunction) then true else i < old(alarmSearchJunction) && stored)
              && alarmSearchJunction == (if i == old(alarmSearchJunction) then last
                                         else if i < old(alarmSearchJunction) then old(alarmSearchJunction) else i)
              && lastJunction == (if i < old(alarmSearchJunction) && !stored then i else last)
              && done == (pending && a)
    {
      lastJunction, done := last, pending;
      assert Bits(alarmSearchAddress[..])[i] == BitOf(alarmSearchAddress[..], i);
      if i == alarmSearchJunction {
        a := true;
        alarmSearchJunction := lastJunction;
      } else if i < alarmSearchJunction {
        if alarmSearchAddress[i / 8] & Mask(i % 8) != 0 {
          a := true;
        } else {
          a := false;
          done := false;
          lastJunction := i;
        }
      } else {
        a := false;
        alarmSearchJunction := i;
        done := false;
      }
    }

    /** The 64-bit loop of an alarm pass. */
    method AlarmWalk(ghost r: Code, ghost d: nat, ghost t: Code) returns (answered: bool, done: bool)
      requires Valid() && wire.live == wire.alarming && wire.slot == 0 && !wire.complement
      requires wire.alarming != {} ==> d <= 64 && IsTarget(wire.alarming, r, d, t) && alarmSearchJunction == d - 1
      requires wire.alarming != {} && d > 0 ==> r in wire.alarming && Bits(alarmSearchAddress[..]) == r
      modifies wire`live, wire`slot, wire`complement, this`alarmSearchJunction, alarmSearchAddress
      ensures answered <==> wire.alarming != {}
      ensures answered ==> Bits(alarmSearchAddress[..]) == t && alarmSearchJunction == Pending(wire.alarming, t, 64)
      ensures answered ==> (done <==> alarmSearchJunction == -1)
      ensures !answered ==> alarmSearchJunction == old(alarmSearchJunction)
                            && alarmSearchAddress[..] == old(alarmSearchAddress[..])
    {
      hide Bits, BitOf, Mask, Overlay, Unanimous, LastJunction, Sharing, IsTarget, Pending, AlarmPass, PutBit;
      var lastJunction := -1;
      done := true;
      ghost var stored := Bits(alarmSearchAddress[..]);
      if wire.alarming == {} {
        NobodyAnswers(0);
      } else {
        WalkStart(wire.alarming, t, stored);
        AlarmStart(wire.alarming, t, d);
      }
      for i := 0 to 64
        invariant Valid() && wire.slot == i && !wire.complement
        invariant wire.alarming == {} ==> i == 0 && wire.live == {} && alarmSearchJunction == old(alarmSearchJunction)
                                          && alarmSearchAddress[..] == old(alarmSearchAddress[..])
        invariant wire.alarming != {} ==>
                    && Bits(alarmSearchAddress[..]) == Overlay(t, stored, i)
                    && wire.live == Sharing(wire.alarming, t, i)
                    && AlarmPass(wire.alarming, t, d, i, alarmSearchJunction, lastJunction, done)
      {
        if wire.alarming != {} {
          PathToTarget(wire.alarming, r, d, t, i);
          AlarmStep(wire.alarming, r, d, t, i, alarmSearchJunction, lastJunction, done);
          OverlayStep(t, stored, i);
        }
        var a := wire.ReadBit();
        var nota := wire.ReadBit();
        if a && nota { return false, done; }
        if !a && !nota {
          a, lastJunction, done := AlarmFork(i, lastJunction, done);
        }
        StoreBit(alarmSearchAddress, i / 8, Mask(i % 8), a, i);
        wire.WriteBit(a);
      }
      AlarmEnd(wire.alarming, t, d, alarmSearchJunction, lastJunction, done);
      answered := true;
    }

    /** One alarm search call: the k-th alarming device, and misses for ever once they are exhausted. */
    method AlarmSearch(newAddr: array<bv8>, ghost k: nat) returns (found: bool)
      requires Valid() && AtAlarm(k) && newAddr.Length == 8 && newAddr != alarmSearchAddress
      modifies wire`live, wire`slot, wire`complement, this`alarmSearchJunction, this`alarmSearchExhausted,
               alarmSearchAddress, newAddr
      ensures Valid()
      ensures found <==> k < |Order(wire.alarming)|
      ensures found ==> Bits(newAddr[..]) == Order(wire.alarming)[k] && AtAlarm(k + 1)
      ensures !found ==> AtAlarm(k)
    {
      hide Bits, BitOf, Unanimous, LastJunction, Order, IsTarget, Pending, Sharing;
      if alarmSearchExhausted { return false; }
      var presence := wire.Reset();
      OrderIsSortedListing(wire.alarming);
      if !presence { return false; }
      wire.Write(ALARM_SEARCH);
      ghost var r := Bits(alarmSearchAddress[..]);
      ghost var d := if k == 0 then 0 else LastJunction(wire.alarming, r, 64);
      ghost var t := if wire.alarming == {} then r else Order(wire.alarming)[k];
      if wire.alarming != {} { PendingAtPosition(wire.alarming, k, r); }
      var answered, done := AlarmWalk(r, d, t);
      if !answered { return false; }
      if done { alarmSearchExhausted := true; }
      CopyRom(alarmSearchAddress, newAddr);
      return true;
    }

    /** Runs the handler on every alarming device with a valid checksum, in order; the addresses handed to
        the handler are returned. */
    method ProcessAlarms() returns (handled: seq<seq<bv8>>)
      requires Valid()
      modifies wire`live, wire`slot, wire`complement, this`alarmSearchJunction, this`alarmSearchExhausted,
               alarmSearchAddress
      ensures Valid() && forall j: nat | j < |handled| :: |handled[j]| == 8
      ensures seq(|handled|, j requires 0 <= j < |handled| && |handled[j]| == 8 => Bits(handled[j]))
              == ValidOnly(Order(wire.alarming))
    {
      hide AtAlarm, Order, Bits, ValidCode;
      ResetAlarmSearch();
      handled := [];
      ghost var o := Order(wire.alarming);
      ghost var codes: seq<Code> := [];
      ghost var k := 0;
      var alarmAddr := new bv8[8];
      var more := AlarmSearch(alarmAddr, k);
      while more
        invariant Valid() && fresh(alarmAddr) && alarmAddr.Length == 8
        invariant k <= |o| && (more <==> k < |o|)
        invariant more ==> AtAlarm(k + 1) && Bits(alarmAddr[..]) == o[k]
        invariant |codes| == |handled| && codes == ValidOnly(o[..k])
        invariant forall j: nat | j < |handled| :: |handled[j]| == 8 && codes[j] == Bits(handled[j])
        decreases |o| - k
      {
        var valid := ValidAddress(alarmAddr);
        assert o[..k + 1][..k] == o[..k];
        if valid {
          handled := handled + [alarmAddr[..]];
          codes := codes + [o[k]];
        }
        k := k + 1;
        more := AlarmSearch(alarmAddr, k);
      }
      assert o[..k] == o;
    }
  }

  /** The codes of a listing that carry a valid checksum. */
  ghost function ValidOnly(o: seq<Code>): seq<Code>
  {
    if o == [] then []
    else ValidOnly(o[..|o| - 1]) + if ValidCode(o[|o| - 1]) then [o[|o| - 1]] else []
  }

  lemma {:induction false} ValidOnlyMembers(o: seq<Code>)
    ensures forall c :: c in ValidOnly(o) <==> c in o && ValidCode(c)
  {
    hide ValidCode;
    if o != [] {
      ValidOnlyMembers(o[..|o| - 1]);
      assert o == o[..|o| - 1] + [o[|o| - 1]];
    }
  }

  /** All of o lie below c. */
  ghost predicate Below(o: seq<Code>, c: Code) {
    forall k | 0 <= k < |o| :: Less(o[k], c)
  }

  lemma {:induction false} ValidOnlyBelow(o: seq<Code>, c: Code)
    requires Below(o, c)
    ensures Below(ValidOnly(o), c)
  {
    hide ValidCode, Less;
    if o != [] { ValidOnlyBelow(o[..|o| - 1], c); }
  }

  lemma {:induction false} ValidOnlyIncreases(o: seq<Code>)
    requires Increasing(o)
    ensures Increasing(ValidOnly(o))
  {
    hide ValidCode, Less;
    if o != [] {
      ValidOnlyIncreases(o[..|o| - 1]);
      ValidOnlyBelow(o[..|o| - 1], o[|o| - 1]);
    }
  }

  /** The valid codes of a device set, each once, in increasing order. */
  lemma ValidOnlyIsSortedListing(S: set<Code>)
    ensures forall c :: c in ValidOnly(Order(S)) <==> c in S && ValidCode(c)
    ensures Increasing(ValidOnly(Order(S)))
  {
    hide ValidCode, Increasing, ValidOnly;
    OrderIsSortedListing(S);
    ValidOnlyMembers(Order(S));
    ValidOnlyIncreases(Order(S));
  }

  /** What the j-th of a run of alarm search calls must answer: the codes in order, then misses for ever. */
  ghost function AlarmAnswer(S: set<Code>, j: nat): Option<Code>
  {
    if j < |Order(S)| then Some(Order(S)[j]) else None
  }

  /** Any client that resets the alarm search and keeps calling it sees the listing once. */
  method AlarmRun(sensors: DallasTemperature, calls: nat) returns (answers: seq<Option<seq<bv8>>>)
    requires sensors.Valid()
    modifies sensors, sensors.wire, sensors.alarmSearchAddress
    ensures |answers| == calls
    ensures forall j: nat | j < calls :: Reports(answers[j], AlarmAnswer(sensors.wire.alarming, j))
  {
    hide DallasTemperature.AtAlarm, Order, Bits;
    sensors.ResetAlarmSearch();
    answers := [];
    ghost var n := |Order(sensors.wire.alarming)|;
    ghost var k := 0;
    var newAddr := new bv8[8];
    for j := 0 to calls
      invariant sensors.Valid() && sensors.AtAlarm(k) && k == (if j < n then j else n)
      invariant |answers| == j
      invariant forall i: nat | i < j :: Reports(answers[i], AlarmAnswer(sensors.wire.alarming, i))
    {
      var found := sensors.AlarmSearch(newAddr, k);
      answers := answers + [if found then Some(newAddr[..]) else None];
      assert Reports(answers[j], AlarmAnswer(sensors.wire.alarming, j));
      k := if found then k + 1 else k;
    }
  }

  lemma WithinOneRound(S: set<Code>, j: nat)
    requires j <= |Order(S)|
    ensures SearchAnswer(S, j) == if AllHaveFamily(S) then AlarmAnswer(S, j) else None
  {
    DivModUnique(j, |Order(S)| + 1, 0, j);
  }

  /** The two searches answer alike, call by call, until the listing is exhausted, exactly when every code has a
      nonzero first byte; after the first miss the ordinary search starts over. */
  lemma SearchesAgree(S: set<Code>)
    ensures (forall j: nat | j <= |Order(S)| :: SearchAnswer(S, j) == AlarmAnswer(S, j)) <==> AllHaveFamily(S)
    ensures SearchAnswer(S, |Order(S)| + 1) == SearchAnswer(S, 0)
  {
    var n := |Order(S)|;
    OrderIsSortedListing(S);
    NextPhase(n, n);
    DivModUnique(n, n + 1, 0, n);
    DivModUnique(0, n + 1, 0, 0);
    hide Order, AllHaveFamily;
    if AllHaveFamily(S) {
      forall j: nat | j <= n ensures SearchAnswer(S, j) == AlarmAnswer(S, j) {
        WithinOneRound(S, j);
      }
    } else {
      SomeoneLacksFamily(S);
      WithinOneRound(S, 0);
      assert SearchAnswer(S, 0) == None && AlarmAnswer(S, 0).Some?;
    }
  }

  /** The code of sixty-four zeros. */
  ghost function ZeroCode(): Code {
    seq(64, _ => false)
  }

  /** A bus on which the search fails: the device with code zero alone is never found by any call, though the alarm
      search finds it. */
  lemma ZeroCodeIsNeverFound(j: nat)
    ensures SearchAnswer({ZeroCode()}, j) == None && AlarmAnswer({ZeroCode()}, 0) == Some(ZeroCode())
  {
    var S := {ZeroCode()};
    assert !HasFamily(ZeroCode()) && ZeroCode() in S;
    OrderIsSortedListing(S);
    SomeoneLacksFamily(S);
    assert Order(S)[0] in S;
  }

  lemma SomeoneLacksFamily(S: set<Code>)
    requires !AllHaveFamily(S)
    ensures |Order(S)| > 0
  {
    OrderIsSortedListing(S);
  }
}
