/** The OneWire object: a bus with a fixed population of devices, and the resumable ROM search over it. */
module OneWireBus {
  import opened RomOrder
  import opened RomBytes

  const SEARCH_ROM: bv8 := 0xF0
  const ALARM_SEARCH: bv8 := 0xEC

  /** Records the direction taken at bit i in a ROM buffer. */
  method StoreBit(rom: array<bv8>, rom_byte_number: nat, rom_byte_mask: bv8, v: bool, ghost i: nat)
    requires rom.Length == 8 && i < 64 && rom_byte_number == i / 8 && rom_byte_mask == Mask(i % 8)
    modifies rom
    ensures Bits(rom[..]) == old(Bits(rom[..]))[i := v]
  {
    hide Mask, Bits, PutBit, SetBits, ClearBits;
    ghost var before := rom[..];
    PutBitIs(rom[i / 8], i % 8, v);
    if v {
      rom[rom_byte_number] := SetBits(rom[rom_byte_number], rom_byte_mask);
    } else {
      rom[rom_byte_number] := ClearBits(rom[rom_byte_number], rom_byte_mask);
    }
    assert rom[..] == before[i / 8 := PutBit(before[i / 8], i % 8, v)];
    BitsOfUpdate(before, i, v);
  }

  /** Copies a ROM buffer out to the caller. */
  method CopyRom(rom: array<bv8>, newAddr: array<bv8>)
    requires rom.Length == newAddr.Length == 8 && newAddr != rom
    modifies newAddr
    ensures newAddr[..] == rom[..]
  {
    for i := 0 to 8
      invariant newAddr[..i] == rom[..i]
    {
      newAddr[i] := rom[i];
    }
    assert newAddr[..] == newAddr[..8] && rom[..] == rom[..8];
  }

  /** Where the search stands: nothing returned yet (k == 0), or the k-th code of the order just returned. */
  class OneWire {
    const present: set<Code>    // devices wired to the bus
    const alarming: set<Code>   // those that answer the alarm search command
    const ROM_NO: array<bv8>
    var live: set<Code>         // devices still taking part in the current search pass
    var slot: nat                  // index of the ROM bit the live devices transmit
    var complement: bool           // true when the next read slot carries the complement
    var LastDiscrepancy: nat
    var LastFamilyDiscrepancy: nat
    var LastDeviceFlag: bool

    ghost predicate Valid()
      reads this, ROM_NO
    {
      ROM_NO.Length == 8 && alarming <= present
    }

    /** The stored search position is "k codes of Order(present) already returned". */
    ghost predicate AtPosition(k: nat)
      requires Valid()
      reads this, ROM_NO
    {
      k <= |Order(present)| &&
      if k == 0 then LastDiscrepancy == 0 && !LastDeviceFlag
      else
        var r: Code := Order(present)[k - 1];
        && Bits(ROM_NO[..]) == r
        && LastDiscrepancy == LastJunction(present, r, 64)
        && (LastDeviceFlag <==> k == |Order(present)|)
    }

    constructor (present: set<Code>, alarming: set<Code>)
      requires alarming <= present
      ensures Valid() && AtPosition(0) && fresh(ROM_NO)
      ensures this.present == present && this.alarming == alarming
    {
      this.present := present;
      this.alarming := alarming;
      ROM_NO := new bv8[8](_ => 0);
      live, slot, complement := {}, 0, false;
      LastDiscrepancy, LastFamilyDiscrepancy, LastDeviceFlag := 0, 0, false;
    }

    /** Reset pulse: some device answers iff there is one; all devices wait for a command, and none takes part in a
        search yet. */
    method Reset() returns (presence: bool)
      modifies this`live, this`slot, this`complement
      ensures presence <==> present != {}
      ensures live == {} && slot == 0 && !complement
    {
      live, slot, complement := {}, 0, false;
      presence := present != {};
    }

    /** A search command byte selects who takes part. */
    method Write(command: bv8)
      modifies this`live, this`slot, this`complement
      ensures live == (if command == SEARCH_ROM then present else if command == ALARM_SEARCH then alarming else {})
      ensures slot == 0 && !complement
    {
      live := if command == SEARCH_ROM then present else if command == ALARM_SEARCH then alarming else {};
      slot, complement := 0, false;
    }

    /** The line reads 1 iff no live device pulls it low: each transmits its current bit, then its complement. */
    method ReadBit() returns (level: bool)
      requires slot < 64
      modifies this`complement
      ensures complement == !old(complement)
      ensures level <==> Unanimous(live, slot, !old(complement))
    {
      level := Unanimous(live, slot, !complement);
      complement := !complement;
    }

    /** Devices whose current bit differs drop out; the others move to their next bit. */
    method WriteBit(v: bool)
      requires slot < 64
      modifies this`live, this`slot, this`complement
      ensures live == set r | r in old(live) && r[old(slot)] == v
      ensures slot == old(slot) + 1 && !complement
    {
      live := set r | r in live && r[slot] == v;
      slot, complement := slot + 1, false;
    }

    method ResetSearch()
      requires Valid()
      modifies this`LastDiscrepancy, this`LastDeviceFlag, this`LastFamilyDiscrepancy, ROM_NO
      ensures Valid() && AtPosition(0)
    {
      LastDiscrepancy, LastDeviceFlag, LastFamilyDiscrepancy := 0, false, 0;
      var i := 7;
      while true
        invariant 0 <= i < 8
        invariant LastDiscrepancy == 0 && !LastDeviceFlag
        decreases i
      {
        ROM_NO[i] := 0;
        if i == 0 { break; }
        i := i - 1;
      }
    }

    /** Picks the branch at one bit: follow a unanimous answer; at a fork repeat the stored code before the
        last discrepancy, take 1 at it and 0 after it, remembering a fork taken to 0. */
    method Direction(id_bit: bool, cmp_id_bit: bool, id_bit_number: nat, zero: nat, rom_byte_number: nat,
                     rom_byte_mask: bv8)
      returns (search_direction: bool, last_zero: nat)
      requires Valid() && 1 <= id_bit_number <= 64
      requires rom_byte_number == (id_bit_number - 1) / 8 && rom_byte_mask == Mask((id_bit_number - 1) % 8)
      modifies this`LastFamilyDiscrepancy
      ensures id_bit != cmp_id_bit ==> search_direction == id_bit && last_zero == zero
      ensures id_bit == cmp_id_bit ==>
                && (search_direction <==> if id_bit_number < LastDiscrepancy then Bits(ROM_NO[..])[id_bit_number - 1]
                                          else id_bit_number == LastDiscrepancy)
                && last_zero == if search_direction then zero else id_bit_number
    {
      last_zero := zero;
      if id_bit != cmp_id_bit {
        search_direction := id_bit;
      } else {
        if id_bit_number < LastDiscrepancy {
          search_direction := ROM_NO[rom_byte_number] & rom_byte_mask != 0;
          assert search_direction == BitOf(ROM_NO[..], id_bit_number - 1);
        } else {
          search_direction := id_bit_number == LastDiscrepancy;
        }
        if !search_direction {
          last_zero := id_bit_number;
          if last_zero < 9 { LastFamilyDiscrepancy := last_zero; }
        }
      }
    }

    /** Moves the byte number and mask to the next bit. */
    method NextBit(byte_number: nat, mask: bv8, ghost i: nat) returns (rom_byte_number: nat, rom_byte_mask: bv8)
      requires i < 64 && byte_number == i / 8 && mask == Mask(i % 8)
      ensures rom_byte_number == (i + 1) / 8 && rom_byte_mask == Mask((i + 1) % 8)
    {
      MaskShift(i % 8);
      rom_byte_number, rom_byte_mask := byte_number, mask << 1;
      if rom_byte_mask == 0 {
        rom_byte_number := rom_byte_number + 1;
        rom_byte_mask := 1;
      }
    }

    /** The bit loop of a search: from stored code r and discrepancy d it walks to the target t and
        returns the last fork it took to 0. */
    method Walk(ghost r: Code, ghost t: Code) returns (id_bit_number: nat, last_zero: nat)
      requires Valid() && live == present && slot == 0 && !complement
      requires IsTarget(present, r, LastDiscrepancy, t) && (LastDiscrepancy > 0 ==> Bits(ROM_NO[..]) == r)
      modifies this`live, this`slot, this`complement, this`LastFamilyDiscrepancy, ROM_NO
      ensures id_bit_number == 65 && Bits(ROM_NO[..]) == t && last_zero == LastJunction(present, t, 64)
    {
      hide Bits, BitOf, Overlay, Unanimous, LastJunction, Sharing, IsTarget;
      id_bit_number, last_zero := 1, 0;
      var rom_byte_number := 0;
      var rom_byte_mask: bv8 := 1;
      ghost var stored := Bits(ROM_NO[..]);
      WalkStart(present, t, stored);
      while rom_byte_number < 8
        invariant Valid()
        invariant 1 <= id_bit_number == slot + 1 <= 65 && !complement
        invariant rom_byte_number == (id_bit_number - 1) / 8
        invariant rom_byte_number < 8 ==> rom_byte_mask == Mask((id_bit_number - 1) % 8)
        invariant Bits(ROM_NO[..]) == Overlay(t, stored, slot)
        invariant live == Sharing(present, t, slot)
        invariant last_zero == LastJunction(present, t, slot)
        decreases 65 - id_bit_number
      {
        ghost var i := id_bit_number - 1;
        PathToTarget(present, r, LastDiscrepancy, t, i);
        OverlayStep(t, stored, i);
        var id_bit := ReadBit();
        var cmp_id_bit := ReadBit();
        if id_bit && cmp_id_bit { break; }
        var search_direction;
        search_direction, last_zero := Direction(id_bit, cmp_id_bit, id_bit_number, last_zero,
                                                  rom_byte_number, rom_byte_mask);
        assert search_direction == t[i];
        StoreBit(ROM_NO, rom_byte_number, rom_byte_mask, search_direction, i);
        WriteBit(search_direction);
        id_bit_number := id_bit_number + 1;
        rom_byte_number, rom_byte_mask := NextBit(rom_byte_number, rom_byte_mask, i);
      }
    }

    /** One search call. From position k it returns the k-th device; after the last device, and
        whenever some device has a zero first byte, it returns false and starts over. */
    method Search(newAddr: array<bv8>, ghost k: nat) returns (found: bool)
      requires Valid() && AtPosition(k) && newAddr.Length == 8 && newAddr != ROM_NO
      requires k == 0 || AllHaveFamily(present)
      modifies this`live, this`slot, this`complement, this`LastDiscrepancy, this`LastDeviceFlag,
               this`LastFamilyDiscrepancy, ROM_NO, newAddr
      ensures Valid()
      ensures found <==> AllHaveFamily(present) && k < |Order(present)|
      ensures found ==> Bits(newAddr[..]) == Order(present)[k] && AtPosition(k + 1)
      ensures !found ==> AtPosition(0)
    {
      hide Bits, BitOf, Unanimous, LastJunction, HasFamily, AllHaveFamily, IsNext, IsTarget, Order;
      var search_result := false;
      OrderIsSortedListing(present);
      if !LastDeviceFlag {
        var presence := Reset();
        if !presence {
          LastDiscrepancy, LastDeviceFlag, LastFamilyDiscrepancy := 0, false, 0;
          return false;
        }
        Write(SEARCH_ROM);
        ghost var r := Bits(ROM_NO[..]);
        ghost var t := Order(present)[k];
        TargetAtPosition(present, k, r);
        ExhaustedIffNoJunction(present, k);
        NoFamilyComesFirst(present, k);
        var id_bit_number, last_zero := Walk(r, t);
        if !(id_bit_number < 65) {
          LastDiscrepancy := last_zero;
          if LastDiscrepancy == 0 { LastDeviceFlag := true; }
          search_result := true;
        }
      }
      FirstByteIsFamily(ROM_NO[..]);
      if !search_result || ROM_NO[0] == 0 {
        LastDiscrepancy, LastDeviceFlag, LastFamilyDiscrepancy := 0, false, 0;
        search_result := false;
      }
      CopyRom(ROM_NO, newAddr);
      return search_result;
    }
  }
}
