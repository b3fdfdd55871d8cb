/**
  The DHT11 data line as the Raspberry Pi publisher sees it through wiringPi's
  `digitalRead`, and the pulse measurement `readPulse` performs on it.

  The line is a stream of samples: `bus(t)` is the level returned by the t-th
  call of `digitalRead(DATA_PIN)`.  The reader's position in that stream,
  together with the latched global `pinState`, is a `Cursor`.
 */
module Pulse {

  /** Level of the data pin: wiringPi's LOW and HIGH. */
  datatype Level = Low | High

  /** The data pin as an endless stream of samples, one per `digitalRead`. */
  type Bus = nat -> Level

  /** Number of samples consumed so far, and the level latched in `pinState`. */
  datatype Cursor = Cursor(clock: nat, pinState: Level)

  /** What one `readPulse` call returns, and where it leaves the reader. */
  datatype Pulse = Pulse(width: int, next: Cursor)

  /** `MAX_PULSEWIDTH`: the longest run `readPulse` accepts. */
  const MaxPulseWidth: nat := 255

  /**
    End of the run of samples equal to `level` that starts at sample `start`,
    searched from sample `pos` on and capped at MaxPulseWidth + 1 samples: if
    it stops below the cap, it stops at a sample that differs.
   */
  function RunEnd(bus: Bus, start: nat, level: Level, pos: nat): (e: nat)
    requires start <= pos <= start + MaxPulseWidth + 1
    ensures pos <= e <= start + MaxPulseWidth + 1
    ensures e <= start + MaxPulseWidth ==> bus(e) != level
    decreases start + MaxPulseWidth + 1 - pos
  {
    if pos == start + MaxPulseWidth + 1 || bus(pos) != level then pos
    else RunEnd(bus, start, level, pos + 1)
  }

  /** Every sample before the end of the run equals `level`. */
  lemma {:induction false} RunEndSame(bus: Bus, start: nat, level: Level, pos: nat)
    requires start <= pos <= start + MaxPulseWidth + 1
    requires forall j :: start <= j < pos ==> bus(j) == level
    ensures forall j :: start <= j < RunEnd(bus, start, level, pos) ==> bus(j) == level
    decreases start + MaxPulseWidth + 1 - pos
  {
    if pos < start + MaxPulseWidth + 1 && bus(pos) == level {
      RunEndSame(bus, start, level, pos + 1);
    }
  }

  /**
    `readPulse` from cursor `c`.  On failure (-1) it has consumed
    MaxPulseWidth + 1 samples and left `pinState` alone.  Otherwise it returns
    a width of at most MaxPulseWidth, the sample after the run differs from
    `pinState`, and `pinState` is the level of the sample after that one.
   */
  function ReadPulseSpec(bus: Bus, c: Cursor): (p: Pulse)
    ensures p.width == -1 || 0 <= p.width <= MaxPulseWidth
    ensures p.width == -1 ==> p.next == Cursor(c.clock + MaxPulseWidth + 1, c.pinState)
    ensures p.width >= 0 ==>
              bus(c.clock + p.width) != c.pinState &&
              p.next == Cursor(c.clock + p.width + 2, bus(c.clock + p.width + 1))
  {
    var n := RunEnd(bus, c.clock, c.pinState, c.clock) - c.clock;
    if n > MaxPulseWidth then Pulse(-1, Cursor(c.clock + n, c.pinState))
    else Pulse(n, Cursor(c.clock + n + 2, bus(c.clock + n + 1)))
  }

  /**
    The width `readPulse` measures is the length of the run of samples equal
    to `pinState`: it fails exactly when that run reaches MaxPulseWidth + 1
    samples, and otherwise every sample it counted equals `pinState`.
   */
  lemma ReadPulseRun(bus: Bus, c: Cursor)
    ensures var p := ReadPulseSpec(bus, c);
            (p.width == -1 <==>
               forall j :: c.clock <= j <= c.clock + MaxPulseWidth ==> bus(j) == c.pinState) &&
            (p.width >= 0 ==>
               forall j :: c.clock <= j < c.clock + p.width ==> bus(j) == c.pinState)
  {
    RunEndSame(bus, c.clock, c.pinState, c.clock);
  }
}
