/**
  Two frames on which `readData` as written misbehaves, both on a line that
  holds one level and blips to the other level on every third sample.

  After `initialize` has latched the first sample, the reader stands at
  `Cursor(1, a)`.  From there every `readPulse` call counts one sample,
  consumes the blip and the sample after it, and latches `a` again, so all
  83 pulses have width 1 and leave the pin at level `a`.

  - With `a == Low` every pulse after the third is a data pulse: the frame
    carries 80 bits and `readData` shifts bits 40 to 79 into
    `dht11_data[5]` to `dht11_data[9]`, past the end of the buffer.
  - With `a == High` no pulse is a data pulse: nothing is stored, and the
    checksum test runs on whatever the buffer already held.  The zeros the
    program starts with pass it, so `readData` reports success for a frame
    that carried no data at all.
 */
module Findings {
  import opened Pulse
  import opened Frame

  function Other(a: Level): (b: Level)
    ensures b != a
  {
    if a == Low then High else Low
  }

  /** Level `a` except on samples 2, 5, 8, ..., which read the other level. */
  function Glitchy(a: Level): Bus
  {
    t => if t % 3 == 2 then Other(a) else a
  }

  /** Pulse k from `Cursor(1, a)` has width 1 and leaves the reader at sample 3k+4 with `a` latched. */
  predicate Blip(read: Reader, a: Level, k: nat)
  {
    read(Cursor(3 * k + 1, a)) == Pulse(1, Cursor(3 * k + 4, a))
  }

  /** On the line with blips, `readPulse` counts one sample, then consumes the blip and the sample after it. */
  lemma GlitchyPulse(a: Level, k: nat)
    ensures Blip(PulseReader(Glitchy(a)), a, k)
  {
    var bus := Glitchy(a);
    assert bus(3 * k + 1) == a;
    assert bus(3 * k + 2) == Other(a);
    assert bus(3 * k + 3) == a;
    assert RunEnd(bus, 3 * k + 1, a, 3 * k + 2) == 3 * k + 2;
  }

  /** After k such pulses the reader stands at sample 3k+1 with `a` latched. */
  lemma {:induction false} BlipAfter(read: Reader, a: Level, k: nat)
    requires forall j :: Blip(read, a, j)
    ensures After(read, Cursor(1, a), k) == Cursor(3 * k + 1, a)
  {
    if k > 0 {
      BlipAfter(read, a, k - 1);
      assert Blip(read, a, k - 1);
    }
  }

  /** No pulse of the frame fails. */
  lemma BlipNeverFails(read: Reader, a: Level)
    requires forall j :: Blip(read, a, j)
    ensures FirstFailure(read, Cursor(1, a), 0) == FramePulses
  {
    var n := FirstFailure(read, Cursor(1, a), 0);
    BlipAfter(read, a, n);
    assert Blip(read, a, n);
  }

  /** The first n pulses carry n - 3 zero bits when `a` is Low, and none when it is High. */
  lemma {:induction false} BlipBits(read: Reader, a: Level, n: nat)
    requires forall j :: Blip(read, a, j)
    ensures BitsUpTo(read, Cursor(1, a), n)
            == seq(if a == Low && n > LeadingPulses then n - LeadingPulses else 0, _ => false)
  {
    if n > 0 {
      BlipBits(read, a, n - 1);
      BlipAfter(read, a, n - 1);
      assert Blip(read, a, n - 1);
      var m := if a == Low && n - 1 > LeadingPulses then n - 1 - LeadingPulses else 0;
      if a == Low && n > LeadingPulses {
        assert seq(m, _ => false) + [false] == seq(m + 1, _ => false);
      }
    }
  }

  /** The whole frame: all 83 pulses are read, carrying 80 zero bits on a low line and none on a high one. */
  lemma BlipFrame(read: Reader, a: Level)
    requires forall j :: Blip(read, a, j)
    ensures ScanFrame(read, Cursor(1, a))
            == Scan(seq(if a == Low then FramePulses - LeadingPulses else 0, _ => false), false,
                    After(read, Cursor(1, a), FramePulses))
  {
    ScanFrameMatches(read, Cursor(1, a));
    BlipNeverFails(read, a);
    BlipBits(read, a, FramePulses);
  }

  /**
    The low line with blips is read as a complete frame of 80 data bits:
    twice what `dht11_data` holds, so `readData` as written, whose model
    `ReadDataSpec` requires at most 40, would write past the buffer.  The
    corrected decoder rejects the frame and stays inside the buffer.
   */
  lemma OverrunExample(data: seq<bv8>)
    requires |data| == DataBytes
    ensures var s := ScanFrame(PulseReader(Glitchy(Low)), Cursor(1, Low));
            !s.aborted && |s.bits| == 2 * DataBits
    ensures ReadCheckedSpec(PulseReader(Glitchy(Low)), Cursor(1, Low), data).status == -1
  {
    var read := PulseReader(Glitchy(Low));
    forall j ensures Blip(read, Low, j) {
      GlitchyPulse(Low, j);
    }
    BlipFrame(read, Low);
  }

  /**
    The high line with blips carries no data bits, yet `readData` as
    written reports success whenever the buffer already passes the
    checksum, and leaves it as it was; the corrected decoder reports
    failure.
   */
  lemma StaleFrameAccepted(data: seq<bv8>)
    requires |data| == DataBytes && ChecksumOk(data)
    ensures var read := PulseReader(Glitchy(High));
            var c := Cursor(1, High);
            ScanFrame(read, c).bits == [] &&
            ReadDataSpec(read, c, data) == Reading(0, After(read, c, FramePulses), data) &&
            ReadCheckedSpec(read, c, data).status == -1
  {
    var read := PulseReader(Glitchy(High));
    forall j ensures Blip(read, High, j) {
      GlitchyPulse(High, j);
    }
    BlipFrame(read, High);
  }

  /** The buffer the program starts with passes the checksum. */
  lemma StartBufferPasses()
    ensures ChecksumOk([0, 0, 0, 0, 0])
  {
  }
}
