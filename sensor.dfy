/**
  The Raspberry Pi side of the DHT11 publisher: the globals `pinState` and
  `dht11_data`, the data pin read through `digitalRead`, and the routines
  `readPulse` and `readData` that change them in place.
 */
module Sensor {
  import opened Pulse
  import opened Frame

  class Dht11 {
    /** The data pin: what each successive `digitalRead(DATA_PIN)` returns. */
    const bus: Bus
    /** How many times the pin has been read so far. */
    var clock: nat
    /** The global `pinState`. */
    var pinState: Level
    /** The global `dht11_data[5]`. */
    const data: array<bv8>
    /** `readPulse` on this pin, as a function of where the reader stands. */
    ghost const read: Reader

    /** `read` measures pulses on `bus` from cursor `c`. */
    ghost predicate Agrees(c: Cursor)
    {
      read(c) == ReadPulseSpec(bus, c)
    }

    ghost predicate Valid()
    {
      data.Length == DataBytes && forall c :: Agrees(c)
    }

    /** Where the reader stands in the sample stream. */
    function Position(): Cursor
      reads this
    {
      Cursor(clock, pinState)
    }

    /** The globals as the program starts: `pinState = HIGH`, `dht11_data = {0, 0, 0, 0, 0}`. */
    constructor (bus: Bus)
      ensures Valid() && fresh(data)
      ensures this.bus == bus && read == PulseReader(bus)
      ensures clock == 0 && pinState == High
      ensures data[..] == [0, 0, 0, 0, 0]
    {
      this.bus := bus;
      read := PulseReader(bus);
      clock := 0;
      pinState := High;
      data := new bv8[DataBytes](_ => 0);
    }

    /** `digitalRead(DATA_PIN)`: the next sample of the pin. */
    method DigitalRead() returns (level: Level)
      modifies this`clock
      ensures level == bus(old(clock)) && clock == old(clock) + 1
    {
      level := bus(clock);
      clock := clock + 1;
    }

    /** The last step of `initialize`: latch the pin's level in `pinState`. */
    method Initialize()
      modifies this`clock, this`pinState
      ensures pinState == bus(old(clock)) && clock == old(clock) + 1
    {
      pinState := DigitalRead();
    }

    /**
      `readPulse`: count the samples equal to `pinState`, give up with -1 once
      there are more than MAX_PULSEWIDTH of them, otherwise latch the next
      level in `pinState` and return the count.
     */
    method ReadPulse() returns (width: int)
      modifies this`clock, this`pinState
      ensures Pulse(width, Position()) == ReadPulseSpec(bus, old(Position()))
    {
      ghost var start := Position();
      ReadPulseRun(bus, start);
      width := 0;
      var level := DigitalRead();
      while level == pinState
        invariant 0 <= width <= MaxPulseWidth
        invariant pinState == start.pinState && clock == start.clock + width + 1
        invariant level == bus(start.clock + width)
        invariant forall j :: start.clock <= j < start.clock + width ==> bus(j) == pinState
        decreases MaxPulseWidth - width
      {
        width := width + 1;
        if width > MaxPulseWidth {
          return -1;
        }
        level := DigitalRead();
      }
      pinState := DigitalRead();
    }

    /**
      The store step of `readData`: `dht11_data[bitPos / 8] <<= 1`, then
      `|= 1` for a one.
     */
    method ShiftBitIn(bitPos: nat, one: bool)
      requires Valid() && bitPos / 8 < DataBytes
      modifies data
      ensures data[..] == StoreBit(old(data[..]), bitPos, one)
    {
      var b := bitPos / 8;
      data[b] := data[b] << 1;
      if one {
        data[b] := data[b] | 1;
      }
    }

    /**
      The checksum test of `readData`: the low byte of the sum of the first
      four bytes must equal the fifth.
     */
    method ChecksumMatches() returns (ok: bool)
      requires Valid()
      ensures ok == ChecksumOk(data[..])
    {
      var sum := data[0] as int + data[1] as int + data[2] as int + data[3] as int;
      ok := sum % 256 == data[4] as int;
    }

    /**
      The head of each pass of the pulse loop of `readData`: read a pulse and
      say whether it carries a data bit, that is whether it is past the
      three leading pulses and was followed by a low sample.  A width that is
      not positive aborts the scan; otherwise the scan goes on with the bit,
      if any, appended.
     */
    method NextPulse(i: nat, ghost stored: seq<bool>) returns (width: int, isBit: bool)
      requires Valid() && i < FramePulses
      modifies this`clock, this`pinState
      ensures Pulse(width, Position()) == ReadPulseSpec(bus, old(Position()))
      ensures isBit == IsDataPulse(i, pinState)
      ensures old(ScanFrom(read, Position(), i, stored))
              == if width <= 0 then Scan(stored, true, Position())
                 else ScanFrom(read, Position(), i + 1,
                               stored + if isBit then [BitOf(width)] else [])
    {
      ghost var before := Position();
      width := ReadPulse();
      assert Agrees(before);
      ScanFromStep(read, before, i, stored);
      isBit := i >= LeadingPulses && pinState == Low;
    }

    /**
      The store step of `readData` as written: shift the bit into
      `dht11_data[bitPos / 8]` and advance `bitPos`.
     */
    method StoreNextBit(bitPos: nat, one: bool, ghost data0: seq<bv8>, ghost stored: seq<bool>)
      returns (newPos: nat)
      requires Valid() && |data0| == DataBytes && bitPos == |stored| < DataBits
      requires data[..] == StoreAll(data0, stored)
      modifies data
      ensures newPos == bitPos + 1
      ensures data[..] == StoreAll(data0, stored + [one])
    {
      ShiftBitIn(bitPos, one);
      assert (stored + [one])[..|stored|] == stored;
      newPos := bitPos + 1;
    }

    /**
      One pass of the pulse loop of `readData` as written: read a pulse and,
      unless its width is not positive, store its bit if it is a data pulse.
     */
    method ReadBitStep(i: nat, bitPos: nat, ghost data0: seq<bv8>, ghost bits: seq<bool>)
      returns (width: int, newPos: nat, ghost newBits: seq<bool>)
      requires Valid() && |data0| == DataBytes && i < FramePulses && bitPos == |bits| <= DataBits
      requires |ScanFrom(read, Position(), i, bits).bits| <= DataBits
      requires data[..] == StoreAll(data0, bits)
      modifies this`clock, this`pinState, data
      ensures old(ScanFrom(read, Position(), i, bits))
              == if width <= 0 then Scan(bits, true, Position())
                 else ScanFrom(read, Position(), i + 1, newBits)
      ensures width <= 0 ==> newBits == bits
      ensures width > 0 ==> newBits == bits + PulseBits(i, Pulse(width, Position()))
      ensures newPos == |newBits| <= DataBits && data[..] == StoreAll(data0, newBits)
    {
      var isBit;
      width, isBit := NextPulse(i, bits);
      newPos, newBits := bitPos, bits + if isBit then [BitOf(width)] else [];
      if width <= 0 {
        newBits := bits;
      } else {
        ScanFromKeeps(read, Position(), i + 1, newBits);
        if isBit {
          newPos := StoreNextBit(bitPos, width > OneThreshold, data0, bits);
        } else {
          assert newBits == bits;
        }
      }
    }

    /**
      The pulse loop of `readData` as written: up to 83 `readPulse` calls,
      stopping at the first width that is not positive, each data pulse
      shifting its bit into `dht11_data[bitPos / 8]`.  `bits` are the bits
      stored, in order.
     */
    method ReadBits() returns (aborted: bool, ghost bits: seq<bool>)
      requires Valid()
      requires |ScanFrame(read, Position()).bits| <= DataBits
      modifies this`clock, this`pinState, data
      ensures ScanFrame(read, old(Position())) == Scan(bits, aborted, Position())
      ensures data[..] == StoreAll(old(data[..]), bits)
    {
      ghost var whole := ScanFrame(read, Position());
      ghost var data0 := data[..];
      bits := [];
      var bitPos := 0;
      for i := 0 to FramePulses
        invariant ScanFrom(read, Position(), i, bits) == whole
        invariant bitPos == |bits| <= DataBits && data[..] == StoreAll(data0, bits)
      {
        var width;
        width, bitPos, bits := ReadBitStep(i, bitPos, data0, bits);
        if width <= 0 {
          return true, bits;
        }
      }
      aborted := false;
    }

    /**
      `readData` as written: read the frame, then check the checksum.  The
      code only stays inside `dht11_data` when the frame carries at most 40
      data bits, which the caller has to guarantee.
     */
    method ReadData() returns (status: int)
      requires Valid()
      requires |ScanFrame(read, Position()).bits| <= DataBits
      modifies this`clock, this`pinState, data
      ensures Reading(status, Position(), data[..])
              == ReadDataSpec(read, old(Position()), old(data[..]))
    {
      var aborted, bits := ReadBits();
      if aborted {
        return -1;
      }
      var ok := ChecksumMatches();
      status := if ok then 0 else -1;
    }

    /**
      The store step of the corrected `readData`: the bit is shifted in only
      while fewer than 40 have been, and `bitPos` advances either way.
     */
    method KeepBit(bitPos: nat, one: bool, ghost data0: seq<bv8>, ghost stored: seq<bool>)
      returns (newPos: nat)
      requires Valid() && |data0| == DataBytes && bitPos == |stored|
      requires data[..] == StoreAll(data0, Kept(stored))
      modifies data
      ensures newPos == bitPos + 1
      ensures data[..] == StoreAll(data0, Kept(stored + [one]))
    {
      StoreKeptStep(data0, stored, one);
      if bitPos < DataBits {
        ShiftBitIn(bitPos, one);
      }
      newPos := bitPos + 1;
    }

    /**
      One pass of the pulse loop of the corrected `readData`: as
      `ReadBitStep`, except that a data bit past the 40th is counted in
      `bitPos` but not stored.
     */
    method ReadKeptStep(i: nat, bitPos: nat, ghost data0: seq<bv8>, ghost bits: seq<bool>)
      returns (width: int, newPos: nat, ghost newBits: seq<bool>)
      requires Valid() && |data0| == DataBytes && i < FramePulses && bitPos == |bits|
      requires data[..] == StoreAll(data0, Kept(bits))
      modifies this`clock, this`pinState, data
      ensures old(ScanFrom(read, Position(), i, bits))
              == if width <= 0 then Scan(bits, true, Position())
                 else ScanFrom(read, Position(), i + 1, newBits)
      ensures width <= 0 ==> newBits == bits
      ensures width > 0 ==> newBits == bits + PulseBits(i, Pulse(width, Position()))
      ensures newPos == |newBits| && data[..] == StoreAll(data0, Kept(newBits))
    {
      var isBit;
      width, isBit := NextPulse(i, bits);
      newPos, newBits := bitPos, bits + if isBit then [BitOf(width)] else [];
      if width <= 0 {
        newBits := bits;
      } else if isBit {
        newPos := KeepBit(bitPos, width > OneThreshold, data0, bits);
      } else {
        assert newBits == bits;
      }
    }

    /**
      The pulse loop of the corrected `readData`: as `ReadBits`, except that
      `bitPos` counts every data bit while only the first 40 are stored.
     */
    method ReadKeptBits() returns (aborted: bool, bitPos: nat, ghost bits: seq<bool>)
      requires Valid()
      modifies this`clock, this`pinState, data
      ensures ScanFrame(read, old(Position())) == Scan(bits, aborted, Position())
      ensures bitPos == |bits| && data[..] == StoreAll(old(data[..]), Kept(bits))
    {
      ghost var whole := ScanFrame(read, Position());
      ghost var data0 := data[..];
      bits := [];
      bitPos := 0;
      for i := 0 to FramePulses
        invariant ScanFrom(read, Position(), i, bits) == whole
        invariant bitPos == |bits| && data[..] == StoreAll(data0, Kept(bits))
      {
        var width;
        width, bitPos, bits := ReadKeptStep(i, bitPos, data0, bits);
        if width <= 0 {
          return true, bitPos, bits;
        }
      }
      aborted := false;
    }

    /**
      `readData` corrected: the frame fails unless its pulses carried
      exactly 40 bits, and only then is the checksum consulted.
     */
    method ReadDataChecked() returns (status: int)
      requires Valid()
      modifies this`clock, this`pinState, data
      ensures Reading(status, Position(), data[..])
              == ReadCheckedSpec(read, old(Position()), old(data[..]))
    {
      var aborted, bitPos, bits := ReadKeptBits();
      if aborted || bitPos != DataBits {
        return -1;
      }
      var ok := ChecksumMatches();
      status := if ok then 0 else -1;
    }
  }
}
