/**
  One DHT11 frame as `readData` decodes it: 83 pulses, of which those after
  the three leading ones that leave the pin LOW carry one data bit each; the
  bits are shifted, most significant first, into the 5-byte buffer
  `dht11_data`, whose last byte is the checksum of the other four.
 */
module Frame {
  import opened Pulse

  /** Number of `readPulse` calls per frame. */
  const FramePulses: nat := 83
  /**
    Pulses 0, 1 and 2 never carry a bit: the code tests `i >= 3`, although
    its comment speaks of ignoring the first two pulses.
   */
  const LeadingPulses: nat := 3
  /** A data pulse wider than this many samples is a one. */
  const OneThreshold: int := 28
  /** Size of `dht11_data`. */
  const DataBytes: nat := 5
  /** Number of data bits a well-formed frame carries. */
  const DataBits: nat := 8 * DataBytes

  /**
    A way of measuring pulses: `read(c)` is what `readPulse` returns from
    cursor `c`, and where it leaves the reader.  The frame logic below holds
    for any such measurement; `PulseReader` is the one `readPulse` performs.
   */
  type Reader = Cursor -> Pulse

  function PulseReader(bus: Bus): Reader
  {
    c => ReadPulseSpec(bus, c)
  }

  /** Where the reader stands after k successive `readPulse` calls from `c`. */
  function After(read: Reader, c: Cursor, k: nat): Cursor
  {
    if k == 0 then c else read(After(read, c, k - 1)).next
  }

  /** The width returned by the (k+1)-th successive `readPulse` call from `c`. */
  function WidthAt(read: Reader, c: Cursor, k: nat): int
  {
    read(After(read, c, k)).width
  }

  /** `readData` stores a bit for pulse i when i >= 3 and the pin is LOW after it. */
  predicate IsDataPulse(i: nat, after: Level)
  {
    i >= LeadingPulses && after == Low
  }

  /** The bit a data pulse stands for. */
  predicate BitOf(width: int)
  {
    width > OneThreshold
  }

  /** What pulse number i, read as `p`, adds to the data: one bit if it is a data pulse, else nothing. */
  function PulseBits(i: nat, p: Pulse): seq<bool>
  {
    if IsDataPulse(i, p.next.pinState) then [BitOf(p.width)] else []
  }

  // ---------------------------------------------------------------------
  // The pulse loop, in the order readData runs it
  // ---------------------------------------------------------------------

  /** Outcome of the pulse loop: the bits it stored, whether it gave up, and where the reader stands. */
  datatype Scan = Scan(bits: seq<bool>, aborted: bool, next: Cursor)

  /**
    Iterations i..82 of readData's loop from cursor `c`, where `acc` are the
    bits already stored.
   */
  function ScanFrom(read: Reader, c: Cursor, i: nat, acc: seq<bool>): Scan
    requires i <= FramePulses
    decreases FramePulses - i
  {
    if i == FramePulses then Scan(acc, false, c)
    else
      var p := read(c);
      if p.width <= 0 then Scan(acc, true, p.next)
      else ScanFrom(read, p.next, i + 1, acc + PulseBits(i, p))
  }

  /** Stored bits are never taken back, and each of pulses i..82 adds at most one. */
  lemma {:induction false} ScanFromKeeps(read: Reader, c: Cursor, i: nat, acc: seq<bool>)
    requires i <= FramePulses
    ensures var s := ScanFrom(read, c, i, acc);
            |acc| <= |s.bits| <= |acc| + (FramePulses - i) && s.bits[..|acc|] == acc
    decreases FramePulses - i
  {
    if i < FramePulses && read(c).width > 0 {
      var p := read(c);
      var acc' := acc + PulseBits(i, p);
      ScanFromKeeps(read, p.next, i + 1, acc');
      assert acc'[..|acc|] == acc;
    }
  }

  /** One iteration of the pulse loop: read a pulse, give up on a width that is not positive, else store its bit if it has one. */
  lemma ScanFromStep(read: Reader, c: Cursor, i: nat, acc: seq<bool>)
    requires i < FramePulses
    ensures var p := read(c);
            ScanFrom(read, c, i, acc)
            == if p.width <= 0 then Scan(acc, true, p.next)
               else ScanFrom(read, p.next, i + 1, acc + PulseBits(i, p))
  {
  }

  /** The whole pulse loop of one readData call. */
  function ScanFrame(read: Reader, c: Cursor): Scan
  {
    ScanFrom(read, c, 0, [])
  }

  // ---------------------------------------------------------------------
  // The same loop, described pulse by pulse
  // ---------------------------------------------------------------------

  /** Index of the first of pulses i..82 whose width is not positive, or 83 if there is none. */
  function FirstFailure(read: Reader, c: Cursor, i: nat): (n: nat)
    requires i <= FramePulses
    ensures i <= n <= FramePulses
    ensures forall k :: i <= k < n ==> WidthAt(read, c, k) > 0
    ensures n < FramePulses ==> WidthAt(read, c, n) <= 0
    decreases FramePulses - i
  {
    if i == FramePulses || WidthAt(read, c, i) <= 0 then i
    else FirstFailure(read, c, i + 1)
  }

  /** The bits carried by the first n pulses from `c`: one per data pulse, in order. */
  function BitsUpTo(read: Reader, c: Cursor, n: nat): seq<bool>
  {
    if n == 0 then []
    else
      BitsUpTo(read, c, n - 1) + PulseBits(n - 1, read(After(read, c, n - 1)))
  }

  lemma {:induction false} ScanFromMatches(read: Reader, c: Cursor, i: nat)
    requires i <= FramePulses
    ensures var n := FirstFailure(read, c, i);
            ScanFrom(read, After(read, c, i), i, BitsUpTo(read, c, i))
            == Scan(BitsUpTo(read, c, n), n < FramePulses,
                    After(read, c, if n < FramePulses then n + 1 else n))
    decreases FramePulses - i
  {
    if i == FramePulses {
      assert FirstFailure(read, c, i) == i;
    } else {
      var p := read(After(read, c, i));
      assert After(read, c, i + 1) == p.next;
      if p.width <= 0 {
        assert FirstFailure(read, c, i) == i;
      } else {
        assert FirstFailure(read, c, i) == FirstFailure(read, c, i + 1);
        ScanFromMatches(read, c, i + 1);
      }
    }
  }

  /**
    The pulse loop stops at the first pulse whose width is not positive,
    reading no pulse after it; it has then stored exactly the bits of the data
    pulses before it.  Without such a pulse it reads all 83 pulses.
   */
  lemma ScanFrameMatches(read: Reader, c: Cursor)
    ensures var n := FirstFailure(read, c, 0);
            ScanFrame(read, c)
            == Scan(BitsUpTo(read, c, n), n < FramePulses,
                    After(read, c, if n < FramePulses then n + 1 else n))
  {
    ScanFromMatches(read, c, 0);
  }

  /** The three leading pulses never carry a bit, so at most 80 pulses of a frame do. */
  lemma {:induction false} BitsUpToBound(read: Reader, c: Cursor, n: nat)
    ensures |BitsUpTo(read, c, n)| <= if n <= LeadingPulses then 0 else n - LeadingPulses
  {
    if n > 0 {
      BitsUpToBound(read, c, n - 1);
    }
  }

  // ---------------------------------------------------------------------
  // Storing bits in dht11_data
  // ---------------------------------------------------------------------

  /**
    `b = b << 1`, then `b = b | 1` for a one: the new bit becomes the least
    significant one and the old top bit is lost to the 8-bit truncation.
   */
  function ShiftIn(b: bv8, bit: bool): (r: bv8)
    ensures r & 1 == (if bit then 1 else 0)
    ensures r >> 1 == b & 0x7f
  {
    (b << 1) | (if bit then 1 else 0)
  }

  /** A byte after the bits `bits` have been shifted into it, in order. */
  function ShiftAll(b: bv8, bits: seq<bool>): bv8
  {
    if bits == [] then b else ShiftIn(ShiftAll(b, bits[..|bits| - 1]), bits[|bits| - 1])
  }

  /** The byte whose bits, most significant first, are `bits`. */
  function Pack(bits: seq<bool>): bv8
  {
    ShiftAll(0, bits)
  }

  lemma {:induction false} ShiftAllAppend(b: bv8, s: seq<bool>, t: seq<bool>)
    ensures ShiftAll(b, s + t) == ShiftAll(ShiftAll(b, s), t)
    decreases |t|
  {
    if t == [] {
      assert s + t == s;
    } else {
      var t' := t[..|t| - 1];
      assert (s + t)[..|s + t| - 1] == s + t';
      ShiftAllAppend(b, s, t');
    }
  }

  /** Eight bits shifted into a byte, written out one shift at a time. */
  lemma ShiftAllUnrolled(b: bv8, s: seq<bool>)
    requires |s| == 8
    ensures ShiftAll(b, s)
         == ShiftIn(ShiftIn(ShiftIn(ShiftIn(ShiftIn(ShiftIn(ShiftIn(ShiftIn(
              b, s[0]), s[1]), s[2]), s[3]), s[4]), s[5]), s[6]), s[7])
  {
    assert s[..8] == s;
    assert s[..8][..7] == s[..7];
    assert s[..7][..6] == s[..6];
    assert s[..6][..5] == s[..5];
    assert s[..5][..4] == s[..4];
    assert s[..4][..3] == s[..3];
    assert s[..3][..2] == s[..2];
    assert s[..2][..1] == s[..1];
    assert s[..1][..0] == [];
    assert ShiftAll(b, s[..1]) == ShiftIn(b, s[0]);
    assert ShiftAll(b, s[..2]) == ShiftIn(ShiftAll(b, s[..1]), s[1]);
    assert ShiftAll(b, s[..3]) == ShiftIn(ShiftAll(b, s[..2]), s[2]);
    assert ShiftAll(b, s[..4]) == ShiftIn(ShiftAll(b, s[..3]), s[3]);
    assert ShiftAll(b, s[..5]) == ShiftIn(ShiftAll(b, s[..4]), s[4]);
    assert ShiftAll(b, s[..6]) == ShiftIn(ShiftAll(b, s[..5]), s[5]);
    assert ShiftAll(b, s[..7]) == ShiftIn(ShiftAll(b, s[..6]), s[6]);
  }

  /** Eight shifts push every bit the byte held before out of it. */
  lemma EightShiftsForget(b: bv8, x0: bool, x1: bool, x2: bool, x3: bool,
                          x4: bool, x5: bool, x6: bool, x7: bool)
    ensures ShiftIn(ShiftIn(ShiftIn(ShiftIn(ShiftIn(ShiftIn(ShiftIn(ShiftIn(
              b, x0), x1), x2), x3), x4), x5), x6), x7)
         == ShiftIn(ShiftIn(ShiftIn(ShiftIn(ShiftIn(ShiftIn(ShiftIn(ShiftIn(
              0, x0), x1), x2), x3), x4), x5), x6), x7)
  {
  }

  /** However many bits (at least eight) go into a byte, it ends up as the last eight of them. */
  lemma ShiftAllLastEight(b: bv8, s: seq<bool>)
    requires |s| >= 8
    ensures ShiftAll(b, s) == Pack(s[|s| - 8..])
  {
    var head, last := s[..|s| - 8], s[|s| - 8..];
    assert s == head + last;
    ShiftAllAppend(b, head, last);
    ShiftAllUnrolled(ShiftAll(b, head), last);
    ShiftAllUnrolled(0, last);
    EightShiftsForget(ShiftAll(b, head), last[0], last[1], last[2], last[3],
                      last[4], last[5], last[6], last[7]);
  }

  /** Bit 7 - i of eight shifted-in bits is the i-th of them: the first one received is the most significant. */
  lemma EightShiftsOrder(x0: bool, x1: bool, x2: bool, x3: bool,
                         x4: bool, x5: bool, x6: bool, x7: bool)
    ensures var r := ShiftIn(ShiftIn(ShiftIn(ShiftIn(ShiftIn(ShiftIn(ShiftIn(ShiftIn(
                       0, x0), x1), x2), x3), x4), x5), x6), x7);
            ((r >> 7) & 1 == 1) == x0 && ((r >> 6) & 1 == 1) == x1 &&
            ((r >> 5) & 1 == 1) == x2 && ((r >> 4) & 1 == 1) == x3 &&
            ((r >> 3) & 1 == 1) == x4 && ((r >> 2) & 1 == 1) == x5 &&
            ((r >> 1) & 1 == 1) == x6 && (r & 1 == 1) == x7
  {
  }

  /** Packing eight bits puts bit i of the sequence at bit 7 - i of the byte. */
  lemma PackMsbFirst(s: seq<bool>, i: nat)
    requires |s| == 8 && i < 8
    ensures ((Pack(s) >> (7 - i)) & 1 == 1) == s[i]
  {
    ShiftAllUnrolled(0, s);
    EightShiftsOrder(s[0], s[1], s[2], s[3], s[4], s[5], s[6], s[7]);
    if i == 0 {} else if i == 1 {} else if i == 2 {} else if i == 3 {}
    else if i == 4 {} else if i == 5 {} else if i == 6 {} else {}
  }

  /** `dht11_data[pos / 8]` with the bit shifted in. */
  function StoreBit(data: seq<bv8>, pos: nat, bit: bool): seq<bv8>
    requires pos / 8 < |data|
  {
    data[pos / 8 := ShiftIn(data[pos / 8], bit)]
  }

  /** The buffer after `bits` have been stored, bit number k at `dht11_data[k / 8]`. */
  function StoreAll(data: seq<bv8>, bits: seq<bool>): (r: seq<bv8>)
    requires |bits| <= 8 * |data|
    ensures |r| == |data|
  {
    if bits == [] then data
    else StoreBit(StoreAll(data, bits[..|bits| - 1]), |bits| - 1, bits[|bits| - 1])
  }

  function Min(a: int, b: int): int
  {
    if a <= b then a else b
  }

  /** The bits of `bits` that land in byte j: those numbered 8j to 8j+7. */
  function ByteBits(bits: seq<bool>, j: nat): seq<bool>
  {
    bits[Min(8 * j, |bits|)..Min(8 * j + 8, |bits|)]
  }

  /** Byte j of the buffer is its old value with exactly the bits numbered 8j..8j+7 shifted in. */
  lemma {:induction false} StoreAllByte(data: seq<bv8>, bits: seq<bool>, j: nat)
    requires |bits| <= 8 * |data| && j < |data|
    ensures StoreAll(data, bits)[j] == ShiftAll(data[j], ByteBits(bits, j))
    decreases |bits|
  {
    if bits == [] {
      assert ByteBits(bits, j) == [];
    } else {
      var prev := bits[..|bits| - 1];
      var pos := |bits| - 1;
      StoreAllByte(data, prev, j);
      if pos / 8 == j {
        assert 8 * j <= pos < 8 * j + 8;
        assert ByteBits(bits, j) == bits[8 * j..pos + 1];
        assert ByteBits(prev, j) == prev[8 * j..pos] == bits[8 * j..pos];
        assert bits[8 * j..pos + 1] == bits[8 * j..pos] + [bits[pos]];
        assert (ByteBits(prev, j) + [bits[pos]])[..|ByteBits(bits, j)| - 1] == ByteBits(prev, j);
      } else if pos < 8 * j {
        assert ByteBits(bits, j) == [] == ByteBits(prev, j);
      } else {
        assert pos >= 8 * j + 8;
        assert ByteBits(bits, j) == bits[8 * j..8 * j + 8] == ByteBits(prev, j);
      }
    }
  }

  /** A byte that no stored bit reaches keeps its contents from before the call. */
  lemma UntouchedByte(data: seq<bv8>, bits: seq<bool>, j: nat)
    requires |bits| <= 8 * j && j < |data|
    ensures StoreAll(data, bits)[j] == data[j]
  {
    StoreAllByte(data, bits, j);
    assert ByteBits(bits, j) == [];
  }

  /**
    Once a full frame of 40 bits has been stored, byte j holds bits 8j..8j+7,
    most significant first, whatever the buffer held before.
   */
  lemma FullFrame(data: seq<bv8>, bits: seq<bool>)
    requires |data| == DataBytes && |bits| == DataBits
    ensures forall j :: 0 <= j < DataBytes ==> StoreAll(data, bits)[j] == Pack(bits[8 * j..8 * j + 8])
  {
    forall j | 0 <= j < DataBytes
      ensures StoreAll(data, bits)[j] == Pack(bits[8 * j..8 * j + 8])
    {
      StoreAllByte(data, bits, j);
      var s := bits[8 * j..8 * j + 8];
      assert ByteBits(bits, j) == s;
      ShiftAllLastEight(data[j], s);
      assert s[|s| - 8..] == s;
    }
  }

  // ---------------------------------------------------------------------
  // Checksum and the result of readData
  // ---------------------------------------------------------------------

  /**
    The checksum test: the sum of `dht11_data[0..3]`, taken modulo 256 (the
    code's `sum & 0xff` of a non-negative `int`), equals `dht11_data[4]`.
   */
  predicate ChecksumOk(d: seq<bv8>)
    requires |d| == DataBytes
  {
    (d[0] as int + d[1] as int + d[2] as int + d[3] as int) % 256 == d[4] as int
  }

  /** What readData returns, where it leaves the reader, and the buffer it leaves behind. */
  datatype Reading = Reading(status: int, next: Cursor, data: seq<bv8>)

  /**
    readData as written.  It needs the frame to carry at most 40 data bits:
    the 41st would be stored at `dht11_data[5]`, outside the buffer.
   */
  function ReadDataSpec(read: Reader, c: Cursor, data: seq<bv8>): (r: Reading)
    requires |data| == DataBytes
    requires |ScanFrame(read, c).bits| <= DataBits
    ensures |r.data| == DataBytes
  {
    var s := ScanFrame(read, c);
    var d := StoreAll(data, s.bits);
    Reading(if !s.aborted && ChecksumOk(d) then 0 else -1, s.next, d)
  }

  /**
    readData returns 0 or -1.  It returns 0 exactly when all 83 pulses had a
    positive width and the buffer, with the frame's bits stored, passes the
    checksum.  Bits stored before a failing pulse stay in the buffer.
   */
  lemma ReadDataOutcome(read: Reader, c: Cursor, data: seq<bv8>)
    requires |data| == DataBytes
    requires |ScanFrame(read, c).bits| <= DataBits
    ensures var r := ReadDataSpec(read, c, data);
            var n := FirstFailure(read, c, 0);
            var bits := BitsUpTo(read, c, n);
            |bits| <= DataBits &&
            r.data == StoreAll(data, bits) &&
            (r.status == 0 || r.status == -1) &&
            (r.status == 0 <==> n == FramePulses && ChecksumOk(StoreAll(data, bits))) &&
            r.next == After(read, c, if n < FramePulses then n + 1 else n)
  {
    ScanFrameMatches(read, c);
  }

  /** The bits the corrected readData stores: the first 40. */
  function Kept(bits: seq<bool>): (k: seq<bool>)
    ensures |k| == Min(|bits|, DataBits)
    ensures k == bits[..|k|]
  {
    if |bits| <= DataBits then bits else bits[..DataBits]
  }

  /** Keeping one more bit: it is kept while fewer than 40 are, and dropped after. */
  lemma KeptAppend(bits: seq<bool>, b: bool)
    ensures Kept(bits + [b]) == if |bits| < DataBits then Kept(bits) + [b] else Kept(bits)
  {
    if |bits| < DataBits {
      assert Kept(bits + [b]) == bits + [b];
    } else {
      assert (bits + [b])[..DataBits] == bits[..DataBits];
    }
  }

  /** Storing one more bit into the buffer of the kept bits: it lands while fewer than 40 are kept. */
  lemma StoreKeptStep(data: seq<bv8>, bits: seq<bool>, b: bool)
    requires |data| == DataBytes
    ensures StoreAll(data, Kept(bits + [b]))
            == if |bits| < DataBits then StoreBit(StoreAll(data, Kept(bits)), |bits|, b)
               else StoreAll(data, Kept(bits))
  {
    KeptAppend(bits, b);
    if |bits| < DataBits {
      var k := Kept(bits) + [b];
      assert k[..|k| - 1] == Kept(bits);
    }
  }

  /**
    Corrected readData: bits past the 40th are not stored, and only a frame
    that delivered exactly 40 bits can pass.
   */
  function ReadCheckedSpec(read: Reader, c: Cursor, data: seq<bv8>): (r: Reading)
    requires |data| == DataBytes
    ensures |r.data| == DataBytes
  {
    var s := ScanFrame(read, c);
    var d := StoreAll(data, Kept(s.bits));
    Reading(if !s.aborted && |s.bits| == DataBits && ChecksumOk(d) then 0 else -1, s.next, d)
  }

  /**
    The corrected readData succeeds exactly when all 83 pulses were read, they
    carried exactly 40 bits, and those bits, packed five bytes most significant
    first, pass the checksum; the buffer then holds exactly those five bytes.
   */
  lemma ReadCheckedOutcome(read: Reader, c: Cursor, data: seq<bv8>)
    requires |data| == DataBytes
    ensures var r := ReadCheckedSpec(read, c, data);
            var n := FirstFailure(read, c, 0);
            var bits := BitsUpTo(read, c, n);
            (r.status == 0 || r.status == -1) &&
            (r.status == 0 <==>
               n == FramePulses && |bits| == DataBits && ChecksumOk(r.data)) &&
            (r.status == 0 ==>
               forall j :: 0 <= j < DataBytes ==> r.data[j] == Pack(bits[8 * j..8 * j + 8])) &&
            r.next == After(read, c, if n < FramePulses then n + 1 else n)
  {
    ScanFrameMatches(read, c);
    var s := ScanFrame(read, c);
    if |s.bits| == DataBits {
      FullFrame(data, s.bits);
    }
  }

  /** On a frame of exactly 40 bits the corrected readData and readData as written agree. */
  lemma CheckedAgrees(read: Reader, c: Cursor, data: seq<bv8>)
    requires |data| == DataBytes
    requires |ScanFrame(read, c).bits| == DataBits
    ensures ReadCheckedSpec(read, c, data) == ReadDataSpec(read, c, data)
  {
  }
}
