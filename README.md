# DHT11 frame decoder of the Raspberry Pi publisher

The publisher in `dht11-pub-sub/pub/dht11Publisher.c` reads a DHT11
temperature and humidity sensor over one GPIO line. Two routines do the
decoding, and this project models both:

- `readPulse` counts how many successive `digitalRead` samples equal the
  latched level `pinState`. It gives up with -1 once the count passes
  `MAX_PULSEWIDTH` (255). Otherwise it latches the level of the next sample
  and returns the count.
- `readData` (the `RASPBERRY_PI` build) calls `readPulse` 83 times and
  fails at the first width that is not positive. Every pulse after the
  third that leaves the pin LOW shifts one bit into the global 5-byte
  buffer `dht11_data`, at byte `bitPos / 8`: a one when the width is above
  28, else a zero. It then accepts the frame when the low byte of
  `dht11_data[0] + ... + dht11_data[3]` equals `dht11_data[4]`.

The data line is a stream of samples, `Bus = nat -> Level`. Sample t is what
the t-th `digitalRead(DATA_PIN)` call returns. Each read consumes one sample.

The model has four modules:

- `Pulse` (`pulse.dfy`) holds `ReadPulseSpec`, the pure description of one
  `readPulse` call from a `Cursor`. A cursor is the number of samples
  consumed so far plus the latched `pinState`.
- `Frame` (`frame.dfy`) describes the 83-pulse loop, the bit store, the
  checksum and the result of `readData`. Its frame-level functions work for
  any pulse reader `Reader = Cursor -> Pulse`. `PulseReader(bus)` is the
  reader `readPulse` implements.
- `Sensor` (`sensor.dfy`) holds the class `Dht11`. Its fields are the
  globals `pinState` and `dht11_data` (an `array<bv8>`), plus the sample
  counter `clock`. Its methods `ReadPulse` and `ReadData` update these in
  place, with the same loops as the C code. Each is proved equal to its
  specification function.
- `Findings` (`findings.dfy`) gives two concrete inputs on which `readData`
  as written misbehaves.

The byte shifts use `bv8`, so the 8-bit truncation of
`dht11_data[b] << 1` is exact. The checksum's `sum & 0xff` on a
non-negative `int` is written as `sum % 256`.

## Model

| member | source | states |
|---|---|---|
| Pulse.RunEnd | dht11-pub-sub/pub/dht11Publisher.c:107-117 | The counting loop stops at the first sample that differs from `pinState`, or after MAX_PULSEWIDTH + 1 samples. Below that cap, the sample it stops at differs. |
| Pulse.RunEndSame | dht11-pub-sub/pub/dht11Publisher.c:109-111 | Every sample the loop counted equals `pinState`. |
| Pulse.ReadPulseSpec | dht11-pub-sub/pub/dht11Publisher.c:105-123 | `readPulse` returns -1 or a width in 0..255. On -1 it has read 256 samples and left `pinState` unchanged. On a width w, sample w differs from `pinState`, w + 2 samples are consumed, and `pinState` becomes the level of sample w + 1. |
| Pulse.ReadPulseRun | dht11-pub-sub/pub/dht11Publisher.c:46-117 | `readPulse` returns -1 exactly when the first 256 samples all equal `pinState`. Otherwise the width is the length of the run of samples equal to `pinState`. |
| Sensor.Dht11.constructor | dht11-pub-sub/pub/dht11Publisher.c:50-51 | The globals start as `pinState = HIGH` and `dht11_data = {0, 0, 0, 0, 0}`, with no sample read yet. |
| Sensor.Dht11.DigitalRead | dht11-pub-sub/pub/dht11Publisher.c:109 | A pin read returns the next sample and consumes it. |
| Sensor.Dht11.Initialize | dht11-pub-sub/pub/dht11Publisher.c:98 | `initialize` ends by latching the current pin level in `pinState`. |
| Sensor.Dht11.ReadPulse | dht11-pub-sub/pub/dht11Publisher.c:105-123 | The in-place loop returns the width and leaves `pinState` and the sample position exactly as `ReadPulseSpec` says. |
| Sensor.Dht11.NextPulse | dht11-pub-sub/pub/dht11Publisher.c:142-154 | One pass reads a pulse: the width and the new position are what `readPulse` gives from the old position. A width that is not positive ends the loop with an abort. Otherwise the pulse adds one bit exactly when its index is at least 3 and it left the pin LOW. |
| Sensor.Dht11.ShiftBitIn | dht11-pub-sub/pub/dht11Publisher.c:156-161 | The two statements that store a bit change only byte `bitPos / 8` of `dht11_data`, as `StoreBit` says. |
| Sensor.Dht11.StoreNextBit | dht11-pub-sub/pub/dht11Publisher.c:154-164 | A contributing pulse appends its bit to those stored and increases `bitPos` by exactly one. |
| Sensor.Dht11.ReadBitStep | dht11-pub-sub/pub/dht11Publisher.c:141-165 | One loop pass: the rest of the scan after it is the rest of the scan before it. The pass appends exactly the pulse's bits: one bit for a data pulse, none otherwise, so a non-contributing pulse leaves `bitPos` and `dht11_data` unchanged. |
| Sensor.Dht11.ReadBits | dht11-pub-sub/pub/dht11Publisher.c:141-166 | The pulse loop stores, in order, exactly the bits `ScanFrame` gives. It stops where `ScanFrame` stops, aborted or after 83 pulses. |
| Sensor.Dht11.ChecksumMatches | dht11-pub-sub/pub/dht11Publisher.c:173-174 | The checksum comparison holds exactly when `ChecksumOk` holds of the buffer. |
| Sensor.Dht11.ReadData | dht11-pub-sub/pub/dht11Publisher.c:131-190 | `readData` returns, leaves the reader and leaves `dht11_data` exactly as `ReadDataSpec` says. It needs a frame of at most 40 data bits. |
| Frame.IsDataPulse | dht11-pub-sub/pub/dht11Publisher.c:154 | Defines which pulse carries a bit: index at least 3 and the pin LOW after it. |
| Frame.BitOf | dht11-pub-sub/pub/dht11Publisher.c:158-161 | Defines the bit a data pulse stands for: a one exactly when its width is above 28. |
| Frame.PulseBits | dht11-pub-sub/pub/dht11Publisher.c:154-164 | Defines what one pulse adds to the data: its bit if it is a data pulse, else nothing. |
| Frame.ScanFrom | dht11-pub-sub/pub/dht11Publisher.c:141-166 | Defines iterations i..82 of the pulse loop: abort on a width ≤ 0, else append the pulse's bits and go on, stopping after pulse 82. |
| Frame.ScanFrame | dht11-pub-sub/pub/dht11Publisher.c:141-166 | Defines the whole pulse loop of one `readData` call, from `i = 0` with nothing stored. |
| Frame.BitsUpTo | dht11-pub-sub/pub/dht11Publisher.c:141-165 | Defines the bits the first n pulses carry, one per data pulse, in order. This is the reference that `ScanFromMatches` compares the loop with. |
| Frame.ScanFromKeeps | dht11-pub-sub/pub/dht11Publisher.c:154-165 | The loop never takes back a stored bit, and adds at most one bit per remaining pulse. |
| Frame.ScanFromStep | dht11-pub-sub/pub/dht11Publisher.c:141-165 | One iteration either aborts on a width ≤ 0 or goes on with the pulse's bit, if any, appended. |
| Frame.FirstFailure | dht11-pub-sub/pub/dht11Publisher.c:141-148 | Finds the index of the first pulse whose width is ≤ 0, or 83. Every earlier pulse has a positive width. |
| Frame.ScanFromMatches | dht11-pub-sub/pub/dht11Publisher.c:141-166 | From any iteration i, the loop ends with the bits of the data pulses before the first failure. The reader stands just after the failing pulse, or after pulse 83. |
| Frame.ScanFrameMatches | dht11-pub-sub/pub/dht11Publisher.c:141-148 | `readData` stops at the first pulse of width ≤ 0 and reads no pulse after it. Until then it has stored exactly the bits of the data pulses before it. |
| Frame.BitsUpToBound | dht11-pub-sub/pub/dht11Publisher.c:141-154 | The first three pulses never carry a bit, so a frame carries at most 80 bits, while the buffer holds 40. |
| Frame.ShiftIn | dht11-pub-sub/pub/dht11Publisher.c:156-161 | The new bit is the least significant bit, 1 exactly for a one. The other seven bits are the old byte's low seven bits, and the old top bit is lost to the 8-bit truncation. |
| Frame.ShiftAllAppend | dht11-pub-sub/pub/dht11Publisher.c:156-161 | Shifting in s and then t is the same as shifting in s + t. |
| Frame.ShiftAllUnrolled | dht11-pub-sub/pub/dht11Publisher.c:156-161 | Eight bits shifted in are eight successive shift-and-set steps, in order. |
| Frame.EightShiftsForget | dht11-pub-sub/pub/dht11Publisher.c:156 | Eight shifts push out every bit the byte held before, so the result does not depend on the old byte. |
| Frame.EightShiftsOrder | dht11-pub-sub/pub/dht11Publisher.c:156-161 | After eight shifts, the i-th bit received is bit 7 - i of the byte. |
| Frame.ShiftAllLastEight | dht11-pub-sub/pub/dht11Publisher.c:156-161 | A byte that receives at least 8 bits ends up as exactly the last 8 of them, whatever it held before the call. |
| Frame.PackMsbFirst | dht11-pub-sub/pub/dht11Publisher.c:156-161 | Of 8 bits shifted in, the first received ends up as the most significant bit: bit i of the sequence is bit 7 - i of the byte. |
| Frame.StoreAllByte | dht11-pub-sub/pub/dht11Publisher.c:154-165 | Bit number k goes to byte k / 8. Byte j is its old value with exactly bits 8j..8j+7 shifted in. |
| Frame.UntouchedByte | dht11-pub-sub/pub/dht11Publisher.c:156 | A byte that no stored bit reaches keeps its old contents. |
| Frame.FullFrame | dht11-pub-sub/pub/dht11Publisher.c:171 | Once 40 bits are stored, byte j holds bits 8j..8j+7, most significant first. Nothing from an earlier call remains. |
| Frame.ShiftAll | dht11-pub-sub/pub/dht11Publisher.c:156-161 | Defines a byte after a sequence of bits has been shifted into it, in order. |
| Frame.StoreBit | dht11-pub-sub/pub/dht11Publisher.c:156-161 | Defines the buffer after one bit is shifted into byte `bitPos / 8`, with the other bytes unchanged. |
| Frame.StoreAll | dht11-pub-sub/pub/dht11Publisher.c:154-165 | Storing bits never changes the size of `dht11_data`. |
| Frame.ChecksumOk | dht11-pub-sub/pub/dht11Publisher.c:173-174 | Defines the checksum test: the low byte of the sum of bytes 0..3 equals byte 4. |
| Frame.ReadDataSpec | dht11-pub-sub/pub/dht11Publisher.c:131-177 | `readData` as written, for a frame of at most 40 data bits, leaves a 5-byte buffer. |
| Frame.ReadDataOutcome | dht11-pub-sub/pub/dht11Publisher.c:141-177 | `readData` returns 0 or -1. It returns 0 exactly when all 83 pulses were positive and the buffer, with the frame's bits stored, passes the checksum. Bits stored before a failing pulse stay in the buffer. |
| Frame.Kept | dht11-pub-sub/pub/dht11Publisher.c:154-164 | Corrected store: the kept bits are a prefix of the frame's bits, of length min(n, 40). |
| Frame.ReadCheckedSpec | dht11-pub-sub/pub/dht11Publisher.c:131-177 | Corrected `readData`, defined for every frame, leaves a 5-byte buffer. |
| Frame.KeptAppend | dht11-pub-sub/pub/dht11Publisher.c:154-164 | Corrected store: a bit is kept while fewer than 40 are and dropped after that. |
| Frame.StoreKeptStep | dht11-pub-sub/pub/dht11Publisher.c:156-164 | Corrected store: one more bit changes byte `bitPos / 8` while `bitPos < 40` and nothing after that. |
| Frame.ReadCheckedOutcome | dht11-pub-sub/pub/dht11Publisher.c:141-177 | Corrected `readData` succeeds exactly when all 83 pulses were read, they carried exactly 40 bits, and the buffer passes the checksum. On success, byte j is bits 8j..8j+7, most significant first. |
| Frame.CheckedAgrees | dht11-pub-sub/pub/dht11Publisher.c:171-177 | On a frame of exactly 40 bits, the corrected `readData` and `readData` as written agree. |
| Sensor.Dht11.KeepBit | dht11-pub-sub/pub/dht11Publisher.c:154-164 | Corrected store step: `bitPos` advances for every data pulse, but only the first 40 bits reach `dht11_data`. |
| Sensor.Dht11.ReadKeptStep | dht11-pub-sub/pub/dht11Publisher.c:141-165 | Corrected loop pass: like `ReadBitStep`, it appends exactly the pulse's bits and follows the scan, but it stores only the first 40 bits. |
| Sensor.Dht11.ReadKeptBits | dht11-pub-sub/pub/dht11Publisher.c:141-166 | The corrected pulse loop follows `ScanFrame` and leaves the first 40 of its bits in `dht11_data`. |
| Sensor.Dht11.ReadDataChecked | dht11-pub-sub/pub/dht11Publisher.c:131-177 | The corrected `readData` needs no precondition on the frame and returns exactly what `ReadCheckedSpec` says. |
| Findings.GlitchyPulse | dht11-pub-sub/pub/dht11Publisher.c:105-123 | On a line that blips on every third sample, each `readPulse` call measures width 1 and latches the line's level again. |
| Findings.BlipAfter | dht11-pub-sub/pub/dht11Publisher.c:141-142 | After k such pulses, the reader stands at sample 3k + 1. |
| Findings.BlipNeverFails | dht11-pub-sub/pub/dht11Publisher.c:141-148 | None of the 83 pulses on that line fails. |
| Findings.BlipBits | dht11-pub-sub/pub/dht11Publisher.c:154-165 | On that line, pulse k carries a zero bit for every k ≥ 3 when the line is LOW, and no bit when it is HIGH. |
| Findings.BlipFrame | dht11-pub-sub/pub/dht11Publisher.c:141-166 | On that line, the whole loop runs to the end and yields 80 bits (LOW) or none (HIGH). |
| Findings.OverrunExample | dht11-pub-sub/pub/dht11Publisher.c:154-164 | A LOW line with blips gives a complete frame of 80 data bits, which `readData` as written would store up to `dht11_data[9]`. The corrected decoder rejects it. |
| Findings.StaleFrameAccepted | dht11-pub-sub/pub/dht11Publisher.c:171-177 | A HIGH line with blips gives no data bits. `readData` as written still returns 0 whenever the old buffer passes the checksum, and the corrected decoder returns -1. |
| Findings.StartBufferPasses | dht11-pub-sub/pub/dht11Publisher.c:51 | The all-zero buffer the program starts with passes the checksum. |

## Left out

- Sensor.Dht11.ReadData: requires a frame of at most 40 data bits, and so does Frame.ReadDataSpec. Beyond that the C code writes past the end of `dht11_data`, which is undefined behaviour. See Findings.
- GPIO set-up and the start pulse of `initialize` (`pinMode`, `digitalWrite`, `delay`) are hardware output. Only its last line, which latches `pinState`, is modelled.
- `delayMicroseconds(1)` in the counting loop is left out. The model counts samples, not microseconds, so the 28-sample threshold is compared with sample counts as in the code.
- The conversion of the bytes to `double` humidity and temperature, and the `snprintf` JSON message, are left out because they use floating point and C formatting.
- `getSystemTime` is left out because it reads the OS clock. The non-Pi stub `readData` is left out because it returns constants.
- The `main` loops of publisher and subscriber (`initialize`, `readData`, `sleep`, publish) are left out as process plumbing. Because of that loop, `dht11_data` persists from one call to the next, and the model's `data` parameter and array keep it the same way.
- The MQTT wrappers around the AWS IoT SDK and the mbedTLS `calloc` shim are not part of this model. Their behaviour lives in external libraries.
- MQTT session handling, packet encoding and reconnection live in the AWS IoT SDK, which `aws_mqtt.c` only calls. They are not part of this model.
- Sensor.Dht11.ChecksumMatches: the model writes the code's `sum & 0xff` as `sum % 256`. The two agree for a non-negative `int`, but the model does not prove this bitwise identity.

## Findings

| source | as written | input that shows it | evidently intended | confidence | as-written member | corrected member |
|---|---|---|---|---|---|---|
| dht11-pub-sub/pub/dht11Publisher.c:154-164 | Every pulse after the third that leaves the pin LOW is stored at `dht11_data[bitPos / 8]`, with no bound on `bitPos`. | After `initialize`, the line stays LOW and blips HIGH on samples 2, 5, 8, …. All 83 pulses have width 1 and end LOW, giving 80 data bits, so bits 40..79 go to `dht11_data[5..9]`. | Store at most 40 bits and fail a frame that does not deliver exactly 40. | not executed | Findings.OverrunExample | Sensor.Dht11.ReadDataChecked |
| dht11-pub-sub/pub/dht11Publisher.c:171-177 | The checksum is checked on whatever the buffer holds, however many bits this frame stored. | After `initialize`, the line stays HIGH and blips LOW on samples 2, 5, 8, …. All 83 pulses succeed with no data bit, and the all-zero start buffer passes the checksum, so `readData` returns 0. | Accept only a frame that delivered exactly 40 bits. | not executed | Findings.StaleFrameAccepted | Frame.ReadCheckedOutcome |
