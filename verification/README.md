# quadstorm core in Dafny

This project models the integer and bit-level core of the quadstorm
quadcopter firmware and its ground tools. It covers:

- how the firmware encodes ESC commands:
  - DShot frames and OneShot pulses;
  - the four-way multiplexer send order;
  - the scripted arm and calibration phases;
- how the two IMU drivers (LSM6DS3 and BMI323) do two things:
  - configure their chips over SPI;
  - read and chunk their FIFOs;
- the flight controller's PID, complementary filter and quad-X mixer;
- the remote terminal's command parser and its input-mode state machine;
- the IMU telemetry records, from the firmware encoder through the host's
  line filter to its bounded plot series;
- the remote's ping/pong heartbeat.

Each program entity is a Dafny datatype. Each operation is a pure function,
with its error paths kept as `Result`, `Option` or a dedicated outcome type.

Peripherals follow one convention:
- An SPI bus is a script with three parts:
  - the replies it gives, in order;
  - the clock readings the code takes, in order;
  - a log of the frames put on the wire.
- When a script runs out, the outcome is `OffScript`. The real future would
  simply not complete there.
- Time counts 64-bit ticks of a 1 MHz clock. `saturating_add`,
  `duration_since`, `as_secs` and `as_millis` follow the embassy time types.

Arithmetic follows the source's number types:
- Rust `u16` and byte arithmetic is `bv16` and `bv8`.
- `f32` values that are only moved around are their 32-bit patterns.
- The PID, filter and mixer arithmetic is over `real`.

Modules, one per file:

| module | models |
|---|---|
| `Wrappers` | `Option` and `Result` |
| `Bytes` | little-endian conversions |
| `Clock` | instants and durations |
| `ScriptedBus` | the scripted SPI bus |
| `EscProtocol` | DShot and OneShot encodings |
| `MotorDriver` | the multiplexed driver and its scripts |
| `Lsm6ds3`, `Lsm6ds3Fifo` | the LSM6DS3 register side and FIFO reader |
| `Bmi323`, `Bmi323Fifo` | the BMI323 register side and FIFO reader |
| `SensorFusion` | PID and complementary filter |
| `FlightLoop` | mixer, motors-off window and request dispatch |
| `ControlTab` | request parser and input box |
| `Telemetry` | records, line filter and plot series |
| `Heartbeat` | the remote's ping tracker |

## Model

| member | source | states |
|---|---|---|
| EscProtocol.Timing | esp-ikarus/src/motors/rmt.rs:83-144 | every DShot speed has an 80-tick bit period, and a one has the longer high phase and the shorter low phase |
| EscProtocol.DShotTransform | esp-ikarus/src/motors/rmt.rs:67-69 | the DShot throttle lies in 49..=2047; a throttle of 1..=1999 is shifted by exactly 48; 0 gives 49 and 1999 or more gives 2047 |
| EscProtocol.DShotTransformMonotone | esp-ikarus/src/motors/rmt.rs:67-69 | a larger throttle never gives a smaller DShot value |
| EscProtocol.OneShotTransform | drone/src/motors.rs:23-25 | the pulse width lies in 1000..=2000; 0 gives 1000 and 2000 or more gives 2000; below 2000 the width is 1000 plus half the throttle, rounded down |
| EscProtocol.OneShotTransformMonotone | esp-ikarus/src/motors/rmt.rs:160-162 | a larger throttle never gives a shorter pulse |
| EscProtocol.OneShotRoundTrip | drone/src/motors.rs:27-35 | a OneShot pulse train reads back as the width it was built from |
| EscProtocol.OneShotDecodeCanonical | esp-ikarus/src/motors/rmt.rs:164-172 | the only train that reads as a width is one high pulse of that width with a zero-length low phase, then the end marker |
| EscProtocol.OneShot125Window | esp-ikarus/src/motors/rmt.rs:177-182 | at the 8 MHz OneShot125 clock every transformed throttle gives a pulse of 125 to 250 microseconds, with the ends reached at 0 and 2000 |
| EscProtocol.Checksum | esp-ikarus/src/motors/rmt.rs:40 | the checksum of the 12-bit data word is a nibble |
| EscProtocol.Packet | esp-ikarus/src/motors/rmt.rs:35-42 | the packet's top 11 bits are the value, bit 4 is the telemetry flag, and the low nibble is the checksum of the upper 12 bits |
| EscProtocol.PacketFields | esp-ikarus/src/motors/rmt.rs:35-42 | shifting an 11-bit value left by one and or-ing in the flag gives a 12-bit word whose packet carries that value, that flag and a consistent checksum |
| EscProtocol.AssembleFields | esp-ikarus/src/motors/rmt.rs:40-42 | appending the checksum nibble to a 12-bit word keeps the word in the top 12 bits and passes the receiver's checksum test |
| EscProtocol.PacketCanonical | esp-ikarus/src/motors/rmt.rs:35-42 | a packet with a consistent checksum is the packet built from its own value and flag |
| EscProtocol.ReverseBits | esp-ikarus/src/motors/rmt.rs:50 | bit i of the result is bit 15 - i of the input |
| EscProtocol.EncodeFrame | esp-ikarus/src/motors/rmt.rs:32-65 | a frame exists exactly when the value is below 2048; it has 17 codes, code i sends packet bit 15 - i as a one or zero pulse, and code 16 is the end marker |
| EscProtocol.FrameRoundTrip | esp-ikarus/src/motors/rmt.rs:32-65 | decoding an encoded frame gives back the value and the telemetry flag |
| EscProtocol.PulseBitOf | esp-ikarus/src/motors/rmt.rs:52-64 | when a one and a zero have different high phases, the pulse sent for a bit reads back as that bit |
| EscProtocol.ReadBitsStep | esp-ikarus/src/motors/rmt.rs:52-64 | reading k codes is reading the first k - 1, shifting left and or-ing in the bit of code k - 1, and fails exactly when either part fails |
| EscProtocol.FrameDecodeCanonical | esp-ikarus/src/motors/rmt.rs:32-65 | every frame a receiver accepts is exactly the encoding of what it decodes to, so decoding is the inverse of encoding in both directions |
| EscProtocol.SentFrameUnique | esp-ikarus/src/motors/rmt.rs:52-64 | two 17-code frames that send the same packet are equal |
| EscProtocol.ThrottleTransform | esp-ikarus/src/motors/rmt.rs:67-162 | every DShot variant maps a throttle into 49..=2047, and every OneShot variant into 1000..=2000 |
| EscProtocol.EncodePulse | esp-ikarus/src/motors/rmt.rs:96-98 | a pulse train exists exactly when the protocol is OneShot or the value is below 2048 |
| EscProtocol.EncodePulseDecodes | esp-ikarus/src/motors/rmt.rs:96-189 | what the dispatch emits reads back as the value sent: a DShot frame with telemetry false, or a OneShot width |
| EscProtocol.TransformedThrottleEncodes | esp-ikarus/src/motors/rmt.rs:96-98 | a transformed throttle always encodes, never tripping the DShot assertion; DShot frames carry telemetry false; the result decodes to the transformed value |
| MotorDriver.New | drone/src/motors.rs:100-101 | selector slot 0 and slot 1 are driven by different constructor pins |
| MotorDriver.NewWiring | drone/src/motors.rs:100-101 | slot 0 is the second pin and slot 1 the first |
| MotorDriver.SendEscValue | drone/src/motors.rs:110-115 | an encodable value is transmitted first, and an error event follows exactly when the transmission fails; an unencodable value gives only the assertion failure |
| MotorDriver.SendEscValues | esp-ikarus/src/motors/rmt.rs:254-270 | the DShot assertion fires exactly when one of the four values cannot be encoded |
| MotorDriver.SendFromStep | esp-ikarus/src/motors/rmt.rs:254-270 | from motor k on, the DShot assertion fires exactly when value k cannot be encoded or it fires from motor k + 1 on |
| MotorDriver.SendEscValuesOrder | drone/src/motors.rs:117-133 | whatever the pin levels beforehand and whichever transmissions fail, exactly four transmissions happen, and the k-th carries value k while the multiplexer address is k |
| MotorDriver.TransmitErrorsIgnored | esp-ikarus/src/motors/rmt.rs:247-252 | which transmissions fail never changes what is transmitted or where |
| MotorDriver.SendThrottles | drone/src/motors.rs:135-138 | sending transformed throttles never trips the DShot assertion |
| MotorDriver.SendThrottlesDelivers | esp-ikarus/src/motors/rmt.rs:272-275 | motor k receives the transformed throttle k, and the pulse train decodes back to it |
| MotorDriver.Hold | drone/src/motors.rs:142-147 | a hold ends exactly when some clock reading is past the deadline; it sends once per earlier reading, all of them within the deadline, and stops at the first reading past it |
| MotorDriver.RunPhase | esp-ikarus/src/motors/rmt.rs:279-297 | a phase's deadline is its first reading plus its duration, saturating; it sends while the readings stay within it and ends at the first reading past it, more than the duration after the start |
| MotorDriver.RunScript | esp-ikarus/src/motors/rmt.rs:279-297 | a script that finishes gives one send count per phase |
| MotorDriver.RunScriptSuffix | esp-ikarus/src/motors/rmt.rs:279-297 | the phases run one after another: after the first `j` phases have used their readings (each its sends plus two), the rest of the script runs on the readings left and gives the remaining counts |
| MotorDriver.PhaseDeadline | esp-ikarus/src/motors/rmt.rs:279-297 | phase `j` starts at the reading where phase `j - 1` stopped; its deadline is that reading plus its duration, saturating; every reading behind which it sends is within the deadline, and the reading that ends it is past the deadline |
| MotorDriver.SentLength | esp-ikarus/src/motors/rmt.rs:279-345 | a script sends exactly the sum of its phases' counts |
| MotorDriver.SentAt | esp-ikarus/src/motors/rmt.rs:279-345 | the sends come phase by phase: send `i` of phase `j` sits after all sends of the earlier phases and carries that phase's values |
| MotorDriver.ScriptTimeline | esp-ikarus/src/motors/rmt.rs:279-345 | send `i` of phase `j` carries that phase's values and follows a clock reading within that phase's deadline |
| MotorDriver.SentFromPhases | esp-ikarus/src/motors/rmt.rs:279-345 | every value set a script sends belongs to one of its phases |
| MotorDriver.ScriptNeverFails | esp-ikarus/src/motors/rmt.rs:327-345 | a script whose values all encode never trips the DShot assertion, whatever the clock does |
| MotorDriver.SentOnly | esp-ikarus/src/motors/rmt.rs:279-345 | a script whose phases use only allowed values sends nothing else |
| MotorDriver.OneShotScriptValues | esp-ikarus/src/motors/rmt.rs:279-323 | the scripted throttles 0, 1000, 1200 and 2000 become the widths 1000, 1500, 1600 and 2000 |
| MotorDriver.ArmOneShotWire | esp-ikarus/src/motors/rmt.rs:279-297 | OneShot arming puts only the widths 1000, 1600 and 1500 on the wire |
| MotorDriver.CalibrateWire | esp-ikarus/src/motors/rmt.rs:299-323 | calibration puts only 1000, 1600, 2000 and 1500 on the wire |
| MotorDriver.ArmOneShotHoldWire | drone/src/motors.rs:142-147 | the drone's arm loop puts only the 1500 width on the wire |
| MotorDriver.ArmDShotWire | esp-ikarus/src/motors/rmt.rs:327-345 | DShot arming sends only the raw 0, the raw 48 and the transformed zero throttle 49, and never trips the assertion |
| Lsm6ds3.ReadRegister | esp/drone/src/esp_ikarus/lsm6ds3.rs:452-460 | a read writes the address with the read bit, then clocks in one byte, which is the value; it succeeds exactly when both transfers work and one byte comes back |
| Lsm6ds3.WriteRegister | esp/drone/src/esp_ikarus/lsm6ds3.rs:462-468 | a write is the single frame of the masked address and the value, and it succeeds exactly when acknowledged |
| Lsm6ds3.WriteVerifyRegister | esp/drone/src/esp_ikarus/lsm6ds3.rs:470-486 | the write, then the read-back, are logged in that order; a bus error is reported as such |
| Lsm6ds3.WriteVerifyAccepts | esp/drone/src/esp_ikarus/lsm6ds3.rs:470-486 | a verified write succeeds exactly when the write is acknowledged and the byte read back is the value written |
| Lsm6ds3.WriteVerifyRejects | esp/drone/src/esp_ikarus/lsm6ds3.rs:470-486 | a verified write fails with a read-back mismatch exactly when the bus works and another byte is read back |
| Lsm6ds3.DecodeFifoStatus | esp/drone/src/esp_ikarus/lsm6ds3.rs:244-252 | the first byte is skipped; the unread count is 12 bits from bytes 1 and 2 (at most 4095); the flags are bits 7 to 4 of byte 2; the pattern is 10 bits from bytes 3 and 4 |
| Lsm6ds3.EncodeFifoStatus | esp/drone/src/esp_ikarus/lsm6ds3.rs:244-252 | the register bytes of a status lay the fields out where the decoder reads them |
| Lsm6ds3.FifoStatusRoundTrip | esp/drone/src/esp_ikarus/lsm6ds3.rs:244-252 | decoding the bytes of a status gives the status back |
| Lsm6ds3.UnreadRoundTrip | esp/drone/src/esp_ikarus/lsm6ds3.rs:244-252 | the 12-bit unread-word count survives encoding to status bytes and decoding back |
| Lsm6ds3.PatternRoundTrip | esp/drone/src/esp_ikarus/lsm6ds3.rs:244-252 | the 10-bit FIFO pattern survives encoding to status bytes and decoding back |
| Lsm6ds3.FifoStatusIgnores | esp/drone/src/esp_ikarus/lsm6ds3.rs:244-252 | the first byte and the unused high bits of the pattern registers never change the status |
| Lsm6ds3.ReadFifoStatus | esp/drone/src/esp_ikarus/lsm6ds3.rs:236-255 | one transfer writes the status address and clocks in five bytes, which decode to the status |
| Lsm6ds3.ReadFifo | esp/drone/src/esp_ikarus/lsm6ds3.rs:257-264 | the FIFO read writes the data address, then clocks in exactly the bytes asked for |
| Lsm6ds3.RoundingLiteral | esp/drone/src/esp_ikarus/lsm6ds3.rs:388 | the decimal `110 << 5` truncated to a byte selects the same rounding mode as `0b110 << 5` |
| Lsm6ds3.AwaitReset | esp/drone/src/esp_ikarus/lsm6ds3.rs:348-361 | the wait ends well only on a read of exactly `IF_INC`, and times out only on a clock reading a whole second or more after the start |
| Lsm6ds3.AwaitResetHonest | esp/drone/src/esp_ikarus/lsm6ds3.rs:348-361 | a chip that reads back `IF_INC` on the first poll ends the wait at once: it takes two replies, reads no clock and adds no register write |
| Lsm6ds3.PlainWrites | esp/drone/src/esp_ikarus/lsm6ds3.rs:333-345 | the reset writes take no clock readings and only move the bus forward |
| Lsm6ds3.PlainWritesHonest | esp/drone/src/esp_ikarus/lsm6ds3.rs:333-345 | against a chip that acknowledges each write, the reset writes succeed, use one reply each, and put exactly the masked writes on the wire in order |
| Lsm6ds3.VerifyAllHonest | esp/drone/src/esp_ikarus/lsm6ds3.rs:364-447 | against a chip that acknowledges and reads back each write, the verified writes succeed, use exactly their replies, and put exactly the masked writes on the wire in order |
| Lsm6ds3.VerifyAll | esp/drone/src/esp_ikarus/lsm6ds3.rs:364-447 | the verified writes take no clock readings, and any failure among them is a `Verification` error |
| Lsm6ds3.MaskKeepsRegisters | esp/drone/src/esp_ikarus/lsm6ds3.rs:462-468 | every register the configuration writes lies below 0x80, so the write mask leaves it unchanged |
| Lsm6ds3.Configure | esp/drone/src/esp_ikarus/lsm6ds3.rs:318-450 | the configuration fails with `InvalidChip` exactly when WHO_AM_I reads successfully as something other than 0x69, and then nothing has been written |
| Lsm6ds3.ResetAndInit | esp/drone/src/esp_ikarus/lsm6ds3.rs:328-447 | after identification, the reset writes, the reset wait and the verified writes never fail with `InvalidChip` |
| Lsm6ds3.ResetAndInitHonest | esp/drone/src/esp_ikarus/lsm6ds3.rs:328-447 | against a chip that acknowledges, resets at once and reads back every write, the reset and initialisation succeed, read the clock once, and put exactly the reset writes and then the verified writes on the wire |
| Lsm6ds3.ConfigureHonestChip | esp/drone/src/esp_ikarus/lsm6ds3.rs:318-450 | against a chip that behaves, configuration succeeds, reads the clock once, and the writes on the wire are the reset writes followed by the verified ones |
| Lsm6ds3.ReadRegisterLogs | esp/drone/src/esp_ikarus/lsm6ds3.rs:452-460 | a register read, whether it succeeds or fails, puts no register write on the wire |
| Lsm6ds3.AwaitResetLogs | esp/drone/src/esp_ikarus/lsm6ds3.rs:348-361 | however many polls and retried read errors it takes, a reset wait that ends well puts no register write on the wire |
| Lsm6ds3.TimeoutOrRetryLogs | esp/drone/src/esp_ikarus/lsm6ds3.rs:358-360 | the clock step between two reset polls puts no register write on the wire when the wait it resumes ends well |
| Lsm6ds3.VerifyAllLogs | esp/drone/src/esp_ikarus/lsm6ds3.rs:364-447 | for every bus, verified writes that succeed put exactly their masked writes on the wire, in order |
| Lsm6ds3.PlainWritesLogs | esp/drone/src/esp_ikarus/lsm6ds3.rs:333-345 | for every bus, plain writes that succeed put exactly their masked writes on the wire, in order |
| Lsm6ds3.ResetAndInitLogs | esp/drone/src/esp_ikarus/lsm6ds3.rs:328-447 | a reset and initialisation that succeeds has written exactly the reset writes and then the configuration writes |
| Lsm6ds3.ConfigureLogs | esp/drone/src/esp_ikarus/lsm6ds3.rs:318-450 | every successful configuration, on any bus and however long the reset wait polls, has written exactly the reset writes and then the configuration writes, in order |
| Lsm6ds3Fifo.DecodeSample | esp/drone/src/esp_ikarus/lsm6ds3.rs:189-208 | a sample is read from its 18 bytes as nine little-endian words: gyroscope, accelerometer, then three more |
| Lsm6ds3Fifo.EncodeSample | esp/drone/src/esp_ikarus/lsm6ds3.rs:189-208 | the 18 bytes of a sample, in the order the decoder reads them |
| Lsm6ds3Fifo.SampleRoundTrip | esp/drone/src/esp_ikarus/lsm6ds3.rs:189-208 | decoding an encoded sample gives the sample |
| Lsm6ds3Fifo.SampleBytesRoundTrip | esp/drone/src/esp_ikarus/lsm6ds3.rs:189-208 | encoding a decoded chunk gives the chunk |
| Lsm6ds3Fifo.Samples | esp/drone/src/esp_ikarus/lsm6ds3.rs:179-187 | one sample per whole 18-byte chunk, the i-th read from the i-th chunk |
| Lsm6ds3Fifo.ReadLength | esp/drone/src/esp_ikarus/lsm6ds3.rs:141-144 | the transfer ends at `2 * pattern` plus the room behind it or the unread bytes, whichever is less; the end is even and at most 256 |
| Lsm6ds3Fifo.Lag | esp/drone/src/esp_ikarus/lsm6ds3.rs:151-166 | a poll lags exactly when the FIFO overran or the leftover words differ from the pattern, and the skip it computes is `9 - pattern`, between 1 and 9 |
| Lsm6ds3Fifo.PollStep | esp/drone/src/esp_ikarus/lsm6ds3.rs:119-177 | the loop panics exactly on a readable status with words unread and a pattern of 9 or more; an exit keeps the reader as it was; a poll that goes on has read the status and the FIFO and advances on the bytes read |
| Lsm6ds3Fifo.Drain | esp/drone/src/esp_ikarus/lsm6ds3.rs:119-220 | the loop keeps the reader's leftover valid and only moves the bus forward; it panics when its first poll panics, ends with nothing sent when the first poll exits, and otherwise sends the first poll's samples before any later ones |
| Lsm6ds3Fifo.Advance | esp/drone/src/esp_ikarus/lsm6ds3.rs:179-219 | a poll that has read its bytes goes on, sends `end / 18` samples cut from `buf[..end]` in order, and copies the `end % 18` bytes starting at `raw_samples_bytes` to the front: from word offset `9 * n` as written (`as_flattened` at line 187 counts words), from byte `18 * n` when corrected |
| Lsm6ds3Fifo.CopyFrom | esp/drone/src/esp_ikarus/lsm6ds3.rs:187 | `raw_samples_bytes` for `n` samples is `9 * n`, half their byte length, as written, and `18 * n` when corrected |
| Lsm6ds3Fifo.CorrectedCarriesRemainder | esp/drone/src/esp_ikarus/lsm6ds3.rs:179-219 | corrected, every poll, in step or not, carries exactly the bytes of `buf[..end]` behind its whole samples |
| Lsm6ds3Fifo.AsWrittenCarriesMidSample | esp/drone/src/esp_ikarus/lsm6ds3.rs:187-219 | as written, a first poll with one sample and two words over carries `buf[9..13]`, the middle of the sample it sent, instead of `buf[18..22]` |
| Lsm6ds3Fifo.Transfers | esp/drone/src/esp_ikarus/lsm6ds3.rs:119-177 | the status and bytes of every poll that goes on, each read to the length its status allows |
| Lsm6ds3Fifo.Replay | esp/drone/src/esp_ikarus/lsm6ds3.rs:179-219 | advancing poll by poll over recorded transfers keeps the leftover valid |
| Lsm6ds3Fifo.DrainReplays | esp/drone/src/esp_ikarus/lsm6ds3.rs:119-220 | a loop that ends sends exactly what advancing over its own transfers sends, and ends with the same reader |
| Lsm6ds3Fifo.ReplayConservesStream | esp/drone/src/esp_ikarus/lsm6ds3.rs:141-219 | in the corrected reader (transfer behind the leftover, tail copied from byte `18 * n`), polls in step send exactly the whole samples of the leftover followed by all bytes read, in order, and keep the rest as the new leftover |
| Lsm6ds3Fifo.ReplayInStepOk | esp/drone/src/esp_ikarus/lsm6ds3.rs:151-219 | polls in step that never see an overrun tag every sample `Ok` |
| Lsm6ds3Fifo.DrainConservesStream | esp/drone/src/esp_ikarus/lsm6ds3.rs:119-220 | in the corrected reader (transfer behind the leftover, tail copied from byte `18 * n`), a whole loop in step loses and repeats no sample: it sends the samples of the leftover followed by every byte it read, and keeps the remainder |
| Lsm6ds3Fifo.EndIsWordAligned | esp/drone/src/esp_ikarus/lsm6ds3.rs:141-187 | the transfer always ends on a word boundary inside the buffer, so the chunking into words leaves nothing over |
| Lsm6ds3Fifo.AdvanceKeepsValid | esp/drone/src/esp_ikarus/lsm6ds3.rs:179-219 | a poll sends `end / 18` samples and keeps `end % 18` bytes as the new leftover, which is whole words |
| Lsm6ds3Fifo.AdvanceTags | esp/drone/src/esp_ikarus/lsm6ds3.rs:210-215 | every sample of a poll has the same tag, and it is `Lagged` exactly when the poll lags |
| Lsm6ds3Fifo.InSyncConservesStream | esp/drone/src/esp_ikarus/lsm6ds3.rs:141-219 | in the corrected reader (transfer behind the leftover, tail copied from byte `18 * n`), an in-step poll loses and repeats nothing: the leftover plus the bytes read are the samples sent plus the new leftover |
| Lsm6ds3Fifo.InSyncStaysInSync | esp/drone/src/esp_ikarus/lsm6ds3.rs:151-219 | in the corrected reader, in step and without an overrun, a poll tags nothing `Lagged`, and the new leftover words are the pattern plus the words read, modulo 9 |
| Lsm6ds3Fifo.IntoFrontDropsLeftover | esp/drone/src/esp_ikarus/lsm6ds3.rs:146 | as written, the samples sent come from the bytes read alone, and the previous leftover is lost |
| Lsm6ds3Fifo.IntoFrontMisalignsSamples | esp/drone/src/esp_ikarus/lsm6ds3.rs:146 | as written, an in-step poll with one word left over sends two samples tagged `Ok` that start at FIFO word 1 instead of word 0 |
| Lsm6ds3Fifo.AfterLeftoverAlignsSamples | esp/drone/src/esp_ikarus/lsm6ds3.rs:141-148 | with the transfer behind the leftover, the same poll's first sample starts at word 0; this holds whatever offset the tail is copied from, while carrying the stream across polls also needs the copy from byte `18 * n` (InSyncConservesStream) |
| Bmi323.ReadRegister | esp-ikarus/src/bmi323.rs:463-472 | a read is the frame `[0x80 \| reg, 0, 0, 0]`, and it succeeds exactly when four bytes come back, whose bytes 2 and 3 are the value, little-endian |
| Bmi323.WriteFrameLayout | esp-ikarus/src/bmi323.rs:474-482 | a write frame never has the read bit set and carries the value little-endian |
| Bmi323.WriteRegister | esp-ikarus/src/bmi323.rs:474-482 | a write is one three-byte frame and succeeds exactly when acknowledged |
| Bmi323.WriteVerifyRegister | esp-ikarus/src/bmi323.rs:484-500 | the write and the read-back are logged in that order, and bus errors are reported as `Spi` |
| Bmi323.WriteVerifyAccepts | esp-ikarus/src/bmi323.rs:484-500 | a verified write succeeds exactly when the write is acknowledged and the register reads back the value written |
| Bmi323.WriteVerifyRejects | esp-ikarus/src/bmi323.rs:484-500 | a verified write fails with `Verification` exactly when the bus works and another value is read back |
| Bmi323.ReadFifoStatus | esp-ikarus/src/bmi323.rs:513-535 | two register reads: full is bit 7 of byte 3 of the first, and the unread count is bytes 2 and 3 of the second, little-endian |
| Bmi323.FifoFullIsBit15 | esp-ikarus/src/bmi323.rs:518 | the full flag is bit 15 of the INT_STATUS2 register value |
| Bmi323.ReadFifo | esp-ikarus/src/bmi323.rs:537-544 | the FIFO read writes the data address and a dummy byte, then clocks in the whole buffer |
| Bmi323.ChipAcceptedLowByte | esp-ikarus/src/bmi323.rs:205-213 | the chip is accepted exactly when the low byte of the identification read is 0x43, whatever the high byte |
| Bmi323.FeatureResult | esp-ikarus/src/bmi323.rs:378 | the result code is the low nibble |
| Bmi323.AwaitPowerUp | esp-ikarus/src/bmi323.rs:220-234 | the wait ends well only on a STATUS read with `status & 0xE1 == 0x01`; it fails only with `Spi` or `Timeout`, and `Timeout` only on a clock reading more than one whole second after the reset |
| Bmi323.AwaitFeatureIdle | esp-ikarus/src/bmi323.rs:351-362 | the wait takes no clock readings, ends well only on a read with bits 11 and 12 clear, and fails only with `Spi` |
| Bmi323.AwaitResult | esp-ikarus/src/bmi323.rs:368-395 | the wait ends well only on a read with bit 4 set and low nibble 5; a fault carries the nibble of a read with bit 4 set and a nibble other than 5; `Timeout` comes only on a reading more than one whole second after the start |
| Bmi323.RegisterValues | esp-ikarus/src/bmi323.rs:254-310 | the operating values are watermark 28, FIFO_CONF 0x0700, IO_INT_CTRL 0x0707, INT_MAP2 0x9000, ACC_CONF 0x702B and GYR_CONF 0x704B, and both self-test settings are 0x7009 |
| Bmi323.VerifyAll | esp-ikarus/src/bmi323.rs:254-310 | the verified writes take no clock readings, and any failure among them is `Verification` |
| Bmi323.PlainWrites | esp-ikarus/src/bmi323.rs:412-417 | the plain writes take no clock readings, and any failure among them is `Spi` |
| Bmi323.PlainWritesHonest | esp-ikarus/src/bmi323.rs:412-417 | against a chip that acknowledges each write, the plain writes succeed, use one reply each, and put exactly the writes on the wire in order |
| Bmi323.VerifyAllHonest | esp-ikarus/src/bmi323.rs:254-310 | against a chip that acknowledges and reads back each write, the verified writes succeed, use exactly their replies, and put exactly the writes on the wire in order |
| Bmi323.CheckError | esp-ikarus/src/bmi323.rs:242-249 | the check passes exactly when ERROR reads zero; otherwise it fails with `Internal` of the value read, or with `Spi` |
| Bmi323.RunProcedure | esp-ikarus/src/bmi323.rs:351-395 | a procedure waits for idle, sends its commands and waits for the result; it fails only with `Spi`, `Timeout` or its own fault |
| Bmi323.SelfTestAndCalibration | esp-ikarus/src/bmi323.rs:323-461 | the self-test settings, the self-test, the self-calibration, then the feature engine off; the only failures are `Spi`, `Verification`, `Timeout`, `SelfTest` and `SelfCalibration` |
| Bmi323.Calibrate | esp-ikarus/src/bmi323.rs:344-450 | from the feature engine on to the end of the self-calibration, with the same failures |
| Bmi323.CalibrateAfterSelfTest | esp-ikarus/src/bmi323.rs:397-450 | the self-calibration, then the feature engine off; it fails only with `Spi`, `Verification`, `Timeout` or `SelfCalibration`, never with a self-test code |
| Bmi323.Configure | esp-ikarus/src/bmi323.rs:197-321 | `InvalidChip` exactly when the dummy read and the identification read both succeed and the identification's low byte is not 0x43; a successful run ends with a read of ERROR that gives zero; the `Init` error never arises |
| Bmi323.Identify | esp-ikarus/src/bmi323.rs:204-213 | the identification read fails with `InvalidChip` exactly when it succeeds with a low byte other than 0x43, and a successful run ends with a read of ERROR that gives zero |
| Bmi323.Reset | esp-ikarus/src/bmi323.rs:215-234 | from the soft reset on, a failure is never `InvalidChip` or `Init`, and success ends with a read of ERROR that gives zero |
| Bmi323.PowerUp | esp-ikarus/src/bmi323.rs:220-251 | from the power-up wait on, a failure is never `InvalidChip` or `Init`, and success ends with a read of ERROR that gives zero |
| Bmi323.AfterPowerUp | esp-ikarus/src/bmi323.rs:236-251 | from the second dummy read on, a failure is never `InvalidChip` or `Init`, and success ends with a read of ERROR that gives zero |
| Bmi323.Operate | esp-ikarus/src/bmi323.rs:251-320 | from the self-test and calibration on, a failure is never `InvalidChip` or `Init`, and success ends with a read of ERROR that gives zero |
| Bmi323.Finish | esp-ikarus/src/bmi323.rs:253-320 | the operating writes and the final error check fail only with `Spi`, `Verification` or `Internal`, and success ends with a read of ERROR that gives zero |
| Bmi323.ConfigureHonestChip | esp-ikarus/src/bmi323.rs:197-461 | against a chip that behaves, configuration succeeds, takes three clock readings (reset, self-test and calibration starts), and writes exactly the reset, self-test settings, commands and operating registers, in order |
| Bmi323.AwaitPowerUpLogs | esp-ikarus/src/bmi323.rs:220-234 | however many STATUS polls and clock readings it takes, a power-up wait that ends well puts no register write on the wire |
| Bmi323.PowerUpClockLogs | esp-ikarus/src/bmi323.rs:231-233 | the clock step between two power-up polls puts no register write on the wire when the wait it resumes ends well |
| Bmi323.AwaitFeatureIdleLogs | esp-ikarus/src/bmi323.rs:351-362 | however many polls it takes, a wait for the idle feature engine that ends well puts no register write on the wire |
| Bmi323.AwaitResultLogs | esp-ikarus/src/bmi323.rs:368-395 | however many polls and clock readings it takes, a procedure wait that ends well puts no register write on the wire |
| Bmi323.ResultClockLogs | esp-ikarus/src/bmi323.rs:388-394 | the clock step between two procedure polls puts no register write on the wire when the wait it resumes ends well |
| Bmi323.VerifyAllLogs | esp-ikarus/src/bmi323.rs:254-310 | for every bus, verified writes to addressable registers that succeed put exactly those writes on the wire, in order, whatever the read-backs contained |
| Bmi323.PlainWritesLogs | esp-ikarus/src/bmi323.rs:412-417 | for every bus, plain writes to addressable registers that succeed put exactly those writes on the wire, in order |
| Bmi323.StartProcedureLogs | esp-ikarus/src/bmi323.rs:364-395 | a procedure started on any bus that ends well has written exactly its commands |
| Bmi323.RunProcedureLogs | esp-ikarus/src/bmi323.rs:351-395 | a whole procedure (idle wait, commands, result wait) that ends well has written exactly its commands |
| Bmi323.CalibrateAfterSelfTestLogs | esp-ikarus/src/bmi323.rs:397-450 | a self-calibration that ends well has written its two commands and then the feature engine off |
| Bmi323.CalibrateLogs | esp-ikarus/src/bmi323.rs:344-450 | from the feature engine on, a successful run has written the engine enable, the self-test command, the calibration commands and the engine off |
| Bmi323.SelfTestAndCalibrationLogs | esp-ikarus/src/bmi323.rs:323-461 | a successful self-test and calibration has written the self-test settings followed by the calibration commands |
| Bmi323.FinishLogs | esp-ikarus/src/bmi323.rs:253-320 | the final stage, when it succeeds, has written exactly the operating registers in order |
| Bmi323.OperateLogs | esp-ikarus/src/bmi323.rs:251-320 | from the self-test on, a successful run has written the self-test settings, the commands and the operating registers |
| Bmi323.AfterPowerUpLogs | esp-ikarus/src/bmi323.rs:236-251 | from the second dummy read on, a successful run has written the same, and the dummy read adds nothing |
| Bmi323.PowerUpLogs | esp-ikarus/src/bmi323.rs:220-251 | from the power-up wait on, a successful run has written the same, however long the wait polls |
| Bmi323.ResetLogs | esp-ikarus/src/bmi323.rs:215-234 | from the soft reset on, a successful run has written the reset command followed by all the later writes |
| Bmi323.IdentifyLogs | esp-ikarus/src/bmi323.rs:204-213 | from the identification read on, a successful run has written exactly the configured writes |
| Bmi323.ConfigureLogs | esp-ikarus/src/bmi323.rs:197-321 | every successful configuration, on any bus and however long its waits poll, has written exactly the reset, the self-test settings, the commands, the engine off and the operating registers, in order |
| Bmi323Fifo.DecodeSample | esp-ikarus/src/bmi323.rs:125-139 | a sample is read from its 14 bytes: accelerometer x, y, z, gyroscope x, y, z, then the time |
| Bmi323Fifo.EncodeSample | esp-ikarus/src/bmi323.rs:125-139 | the 14 bytes of a sample, in the order the decoder reads them |
| Bmi323Fifo.SampleRoundTrip | esp-ikarus/src/bmi323.rs:125-139 | decoding an encoded sample gives the sample |
| Bmi323Fifo.SampleBytesRoundTrip | esp-ikarus/src/bmi323.rs:125-139 | encoding a decoded chunk gives the chunk |
| Bmi323Fifo.Samples | esp-ikarus/src/bmi323.rs:117-125 | one sample per whole 14-byte chunk, so a trailing partial chunk yields none |
| Bmi323Fifo.SamplesAt | esp-ikarus/src/bmi323.rs:123-125 | the i-th sample is read from the i-th 14-byte chunk |
| Bmi323Fifo.StreamRoundTrip | esp-ikarus/src/bmi323.rs:117-125 | chunking the bytes of a run of samples gives the run back |
| Bmi323Fifo.SamplesIgnoreTail | esp-ikarus/src/bmi323.rs:123 | whatever follows the last whole sample does not change the samples |
| Bmi323Fifo.ReadLength | esp-ikarus/src/bmi323.rs:110 | the length is twice the unread words, at most the 896-byte buffer |
| Bmi323Fifo.PollStep | esp-ikarus/src/bmi323.rs:105-143 | a poll never panics; one that goes on has read a nonzero unread count through the two status reads, then the whole 896-byte buffer, and sends the samples of its first `len` bytes |
| Bmi323Fifo.Drain | esp-ikarus/src/bmi323.rs:102-145 | the loop never panics, only moves the bus forward, and sends only well-formed samples; it ends with nothing sent when the first poll exits, and otherwise sends the first poll's samples before any later ones |
| Bmi323Fifo.Transfers | esp-ikarus/src/bmi323.rs:105-143 | the unread count and the whole 896-byte buffer of every poll that goes on |
| Bmi323Fifo.DrainSends | esp-ikarus/src/bmi323.rs:102-145 | a loop that ends sends, in order, the samples of the first `len` bytes of each buffer it read, and nothing else |
| Bmi323Fifo.SentByCount | esp-ikarus/src/bmi323.rs:110-143 | the polls together send the sum of `len / 14` over the polls |
| Bmi323Fifo.DrainCount | esp-ikarus/src/bmi323.rs:102-145 | a loop that ends sends exactly the sum of `len / 14` over its polls |
| Bmi323Fifo.Flush | esp-ikarus/src/bmi323.rs:98 | the flush write goes out, and its outcome, acknowledged or an error, is ignored |
| Bmi323Fifo.PollSamples | esp-ikarus/src/bmi323.rs:110-143 | a poll sends `len / 14` samples, each from its own 14 bytes from the start of the buffer |
| Bmi323Fifo.WholeSamplesAllSent | esp-ikarus/src/bmi323.rs:110-143 | when the FIFO holds whole samples that fit the buffer, a poll sends all of them |
| Bmi323Fifo.PartialSampleDropped | esp-ikarus/src/bmi323.rs:117-125 | unread words past the last whole sample are read but sent nowhere |
| Bmi323Fifo.FullBufferCap | esp-ikarus/src/bmi323.rs:100-110 | a FIFO holding more than the buffer is sent as one full buffer of 64 samples |
| Bmi323Fifo.ReadsWholeBuffer | esp-ikarus/src/bmi323.rs:111 | the FIFO read is always the whole buffer, however many words are unread |
| Bmi323Fifo.PollRoundTrip | esp-ikarus/src/bmi323.rs:105-143 | a poll over a FIFO holding exactly the bytes of some samples sends those samples |
| SensorFusion.Advance | drone/src/sensor_fusion.rs:21-28 | the error is added to the sum before the output is formed; the output is `kp*e + ki*(sum+e) + kd*(last-e)`; the last input becomes `e`; the gains stay |
| SensorFusion.FeedState | drone/src/sensor_fusion.rs:21-28 | after a run of errors the sum is the starting sum plus all of them, with no decay or clamp, and the last input is the last error |
| SensorFusion.FeedOutput | drone/src/sensor_fusion.rs:21-28 | the k-th output uses the sum up to and including the k-th error and the error before it |
| SensorFusion.FeedLastOutput | drone/src/sensor_fusion.rs:21-28 | the last output is the gains applied to the last error, the sum of all errors, and the change from the error before it |
| SensorFusion.ConstantErrorAccumulates | drone/src/sensor_fusion.rs:21-28 | a fresh controller fed an error of one n times holds a sum of exactly n |
| SensorFusion.New | drone/src/sensor_fusion.rs:47-83 | each axis gets its gains, every sum and last input starts at zero, and the other fields are copied |
| SensorFusion.SetTarget | drone/src/sensor_fusion.rs:87-89 | only the target changes |
| SensorFusion.Step | drone/src/sensor_fusion.rs:95-145 | yaw becomes the old yaw minus the z rate times dt, and controller i is advanced on target i minus the new orientation i |
| SensorFusion.YawIgnoresAccelerometer | drone/src/sensor_fusion.rs:138 | two samples that differ only in the accelerometer give the same yaw, whatever the leveling |
| SensorFusion.RollPitchBlend | drone/src/sensor_fusion.rs:132-135 | roll and pitch are `alpha` times the gyroscope estimate plus `1 - alpha` times the leveling estimate |
| SensorFusion.BlendBetween | drone/src/sensor_fusion.rs:132-135 | for `alpha` in 0..1 the blend lies between the two estimates |
| SensorFusion.Initial | drone/src/main.rs:100-102 | the loop's fusion: `alpha` 0.95, level orientation and target, and on every axis a controller with proportional gain 15, no integral or derivative gain, and zero state |
| SensorFusion.InitialIsProportional | drone/src/main.rs:100-102 | with the loop's gains, each output is 15 times the negated new orientation |
| FlightLoop.Mix | drone/src/main.rs:137-142 | the four mixes sum to four times the thrust, and the left-minus-right, front-minus-back and diagonal differences are four times the roll, pitch and yaw, which is the sign table `t+r+p-y`, `t-r+p+y`, `t-r-p-y`, `t+r-p+y` |
| FlightLoop.MixUnmix | drone/src/main.rs:137-142 | every four throttles are the mix of exactly one command, so the sign table is invertible |
| FlightLoop.UnmixMix | drone/src/main.rs:137-142 | unmixing a mix gives the command back |
| FlightLoop.Clamp | drone/src/main.rs:144 | the result lies in 0..1000; it is the input when that is in range, 0 below and 1000 above |
| FlightLoop.ClampIdempotent | drone/src/main.rs:144 | clamping twice is clamping once |
| FlightLoop.ClampMonotone | drone/src/main.rs:144 | clamping keeps order |
| FlightLoop.MapThrottle | drone/src/main.rs:146-168 | the reversed motor gets `1000 - x`, in 0..1000, and the others `1000 + x`, in 1000..2000 |
| FlightLoop.CastU16 | drone/src/main.rs:169 | the `as u16` cast rounds toward zero, gives 0 below 1, and saturates at 65535 |
| FlightLoop.CastWhole | drone/src/main.rs:169 | a whole number in the `u16` range survives the cast |
| FlightLoop.CastMonotone | drone/src/main.rs:169 | the cast keeps order |
| FlightLoop.MotorCommand | drone/src/main.rs:144-169 | an unreversed motor is sent 1000..2000 and the reversed one at most 1000 |
| FlightLoop.Throttles | drone/src/main.rs:137-169 | motor k is sent the command of the k-th mix, reversed only for the back-left motor |
| FlightLoop.ThrottleRanges | drone/src/main.rs:124-169 | the three unreversed motors get 1000..2000 and the reversed one 0..1000 |
| FlightLoop.ForwardCommand | drone/src/main.rs:146-169 | an unreversed motor is sent 1000 plus the whole part of its clamped mix |
| FlightLoop.ReversedCommand | drone/src/main.rs:146-169 | the reversed motor is sent 1000 minus its clamped mix, rounded down |
| FlightLoop.IdleWhenNotPositive | drone/src/main.rs:144-169 | a motor whose mix is not positive is sent 1000, whichever way it turns |
| FlightLoop.SomeMotorIdles | drone/src/main.rs:136-169 | with the loop's zero thrust the mixes cancel, so some motor is sent exactly 1000 |
| FlightLoop.MotorsOffUntil | drone/src/main.rs:104-105 | the window ends two seconds after arming, saturating |
| FlightLoop.Command | drone/src/main.rs:171-176 | inside the window the idle `[1000; 4]` goes out whatever the controller asks for |
| FlightLoop.IdleDuringWindow | drone/src/main.rs:171-176 | less than two seconds after arming only the idle command is sent |
| FlightLoop.MixedAfterWindow | drone/src/main.rs:171-176 | from two seconds after arming on, the mixed commands are sent |
| FlightLoop.IdleOnWire | drone/src/motors.rs:23-25 | the idle command is a 1500-tick OneShot pulse on every motor |
| FlightLoop.Dispatch | drone/src/main.rs:196-203 | at most one request per turn; a ping is answered with exactly one pong; any other request panics |
| FlightLoop.Start | drone/src/main.rs:100-105 | the loop starts with the flight controller's fusion and a motors-off window ending two seconds after arming |
| FlightLoop.Step | drone/src/main.rs:104-203 | one turn advances the fusion on the sample, keeps the window, sends the idle command inside the window and the mix of the controller outputs with zero thrust after it, and dispatches the waiting request |
| FlightLoop.SentInRange | drone/src/main.rs:124-176 | every command the loop sends is at most 2000, and every motor but the reversed one gets at least 1000 |
| ControlTab.ParseInput | remote-terminal/src/control_tab.rs:130-231 | blank text, and only blank text, parses to no request |
| ControlTab.Parse | remote-terminal/src/control_tab.rs:167-231 | a success is a well-formed request; a first token that is not an identifier is `ExpectedVariant`, and an identifier that names no variant is `InvalidVariant` of that name |
| ControlTab.Consume | remote-terminal/src/control_tab.rs:136-145 | succeeds exactly when the expected token comes next, consuming it, and otherwise reports that token as expected |
| ControlTab.ConsumeOrNot | remote-terminal/src/control_tab.rs:147-151 | skips the token exactly when it comes next and otherwise consumes nothing |
| ControlTab.ConsumeFloat | remote-terminal/src/control_tab.rs:153-158 | succeeds exactly when a float token comes next, returning its value and the tokens after it; otherwise "Expected float" |
| ControlTab.ConsumeIdent | remote-terminal/src/control_tab.rs:160-165 | succeeds exactly when an identifier comes next, returning its name and the tokens after it; otherwise "Expected ident" |
| ControlTab.Floats | remote-terminal/src/control_tab.rs:188-201 | a success reads exactly n floats |
| ControlTab.FloatArray | remote-terminal/src/control_tab.rs:188-201 | a success reads exactly three floats |
| ControlTab.ParseSetArm | remote-terminal/src/control_tab.rs:173-180 | exactly `( bool )` after the name |
| ControlTab.ParseSetThrust | remote-terminal/src/control_tab.rs:182-187 | exactly `( float )` after the name |
| ControlTab.ParseSetTarget | remote-terminal/src/control_tab.rs:188-201 | a success is a `SetTarget` of three floats |
| ControlTab.TuneGroup | remote-terminal/src/control_tab.rs:206-219 | one pass of the tune loop: its key is the identifier that comes first, its value holds three gains, and it consumes at least one token; without a leading identifier it fails with "Expected ident" |
| ControlTab.TuneGroups | remote-terminal/src/control_tab.rs:202-220 | a success keeps every key already in the table, and every entry holds three gains |
| ControlTab.ParseSetTune | remote-terminal/src/control_tab.rs:202-228 | a success is a `SetTune` of three gains per term |
| ControlTab.LookupGains | remote-terminal/src/control_tab.rs:221-228 | the gains exist exactly when all three keys are in the table, and a missing one is reported in the order kp, ki, kd |
| ControlTab.FloatsRead | remote-terminal/src/control_tab.rs:188-201 | n floats, written with or without commas, are read back and leave what follows them |
| ControlTab.FloatArrayRead | remote-terminal/src/control_tab.rs:188-201 | a bracketed array of three floats is read back and leaves what follows it |
| ControlTab.TuneGroupsRead | remote-terminal/src/control_tab.rs:202-220 | written groups are read back as the table with each key inserted in turn |
| ControlTab.InsertKeys | remote-terminal/src/control_tab.rs:202-220 | every key inserted, and only those, is in the table |
| ControlTab.LaterKeyWins | remote-terminal/src/control_tab.rs:202-220 | a key given more than once keeps its last group's value |
| ControlTab.TuneReadsTable | remote-terminal/src/control_tab.rs:202-228 | a tune request's groups fill the table in turn, then the gains are looked up |
| ControlTab.TuneAnyOrder | remote-terminal/src/control_tab.rs:202-228 | the three gains may come in any order |
| ControlTab.TuneMissingGain | remote-terminal/src/control_tab.rs:221-228 | a gain no group names is reported missing, checked in the order kp, ki, kd |
| ControlTab.TuneDuplicateRefused | remote-terminal/src/control_tab.rs:202-228 | a key given twice leaves a gain unset, so the request is refused |
| ControlTab.StripUnderscores | remote-terminal/src/control_tab.rs:233-236 | no underscore remains, and text without underscores is unchanged |
| ControlTab.UnderscoreIgnored | remote-terminal/src/control_tab.rs:233-236 | an underscore anywhere in a literal changes nothing |
| ControlTab.ParseRender | remote-terminal/src/control_tab.rs:121-231 | every request survives rendering in the documented format and parsing, with or without the optional punctuation, whatever follows |
| ControlTab.NewTab | remote-terminal/src/control_tab.rs:27-33 | a new tab is inactive, with empty text and nothing parsed |
| ControlTab.HandleEvent | remote-terminal/src/control_tab.rs:35-60 | an inactive tab consumes nothing and changes nothing; an editing tab consumes the event, keeps the shown parse in step with the text, and goes inactive exactly on Esc or Enter; a request is sent exactly on Enter with a successful parse, and it is that parse |
| ControlTab.ToggleInput | remote-terminal/src/control_tab.rs:108-114 | the mode flips and nothing else changes |
| ControlTab.ToggleTwice | remote-terminal/src/control_tab.rs:108-114 | toggling twice is the identity |
| ControlTab.StaysConsistent | remote-terminal/src/control_tab.rs:35-60 | every event and toggle keeps the shown parse in step with the text |
| ControlTab.EnterSendsParsedText | remote-terminal/src/control_tab.rs:43-51 | Enter sends exactly the request the text parses to, nothing for blank or bad text, clears the text and goes inactive |
| ControlTab.EscKeepsText | remote-terminal/src/control_tab.rs:35-60 | Esc leaves editing and keeps the text, as the line editor leaves it |
| ControlTab.SentWellFormed | remote-terminal/src/control_tab.rs:35-60 | a sent request is always well formed |
| Telemetry.TagOf | esp-ikarus/src/bin/main.rs:88-91 | the tag is `O` exactly for `Ok` and `L` exactly for `Lagged` |
| Telemetry.Values | esp-ikarus/src/bin/main.rs:94-101 | the nine values in wire order: gyroscope, accelerometer, temperature |
| Telemetry.WrappingIncrement | esp-ikarus/src/bin/main.rs:114 | the counter goes up by one, and wraps to zero from 2^64 - 1 |
| Telemetry.LaterIsModular | esp-ikarus/src/bin/main.rs:114 | k wrapping increments add k modulo 2^64 |
| Telemetry.EncodeRecord | esp-ikarus/src/bin/main.rs:88-101 | a record is 45 bytes: the tag, the counter little-endian, then the nine values little-endian |
| Telemetry.FromBytes | imu-proc/src/main.rs:22-50 | the index is the little-endian `u64` of bytes 0 to 7, and each of the three groups holds three values |
| Telemetry.SampleRoundTrip | imu-proc/src/main.rs:22-50 | reading the bytes of a sample gives the sample |
| Telemetry.SampleBytesRoundTrip | imu-proc/src/main.rs:22-50 | the bytes of a read sample are the bytes read |
| Telemetry.RecordRoundTrip | imu-proc/src/main.rs:25-49 | the host reads back the counter and the values the firmware wrote, in the same slots |
| Telemetry.Consume | esp-ikarus/src/bin/main.rs:82-114 | one 45-byte record per received event, in order |
| Telemetry.ConsumeRecords | esp-ikarus/src/bin/main.rs:82-114 | the k-th record carries the k-th event's tag and values under the counter `count + k` modulo 2^64 |
| Telemetry.ConsumeAt | esp-ikarus/src/bin/main.rs:82-114 | the k-th record is the k-th event encoded under the counter advanced k times |
| Telemetry.ConsumeCounter | esp-ikarus/src/bin/main.rs:114 | after a run of events the counter has moved on by their number, modulo 2^64 |
| Telemetry.FindFrom | imu-proc/src/main.rs:102 | the first occurrence of the pattern at or after a position, and none exactly when there is no occurrence there |
| Telemetry.SplitOnce | imu-proc/src/main.rs:102 | the line splits exactly when the marker occurs, around its first occurrence |
| Telemetry.TrimSuffix | imu-proc/src/main.rs:103 | a trailing colour reset is removed once, and text without one is unchanged |
| Telemetry.AcceptLine | imu-proc/src/main.rs:99-119 | a line yields an event exactly when it has the marker and the rest, less a trailing colour reset, decodes to 45 bytes; an unknown tag is neither `O` nor `L` |
| Telemetry.MarkerFound | imu-proc/src/main.rs:102 | the marker found is the first one of the line when nothing before it holds one |
| Telemetry.TrimKeepsText | imu-proc/src/main.rs:103 | text without an escape character never loses anything to the trim |
| Telemetry.LineRoundTrip | imu-proc/src/main.rs:99-119 | a line the firmware logs for a record reaches the host as the event it came from: same tag, counter and values |
| Telemetry.EncodedTagsKnown | imu-proc/src/main.rs:106-113 | the firmware only writes the two tags the host knows, so the host never reaches its unreachable branch |
| Telemetry.Push | imu-proc/src/main.rs:143-150 | the new point is last; the series grows by one, except that one longer than 16000 keeps its length |
| Telemetry.PushAllKeepsLatest | imu-proc/src/main.rs:143-150 | from any series within capacity, pushing a run keeps exactly the latest 16001 points |
| Telemetry.SeriesBounded | imu-proc/src/main.rs:143-150 | a series that starts empty never holds more than 16001 points, and the newest is last |
| Telemetry.Update | imu-proc/src/main.rs:136-170 | every plotted series gets the sample's value pushed, and only the first temperature value is plotted |
| Telemetry.UpdateBounded | imu-proc/src/main.rs:136-170 | every series stays within 16001 points |
| Telemetry.UpdateIgnoresTag | imu-proc/src/main.rs:109-113 | `Ok` and `Lagged` samples are plotted alike |
| Telemetry.EncodeCompact | esp/drone/src/esp_ikarus/main.rs:86-92 | the record is 26 bytes: gyroscope and accelerometer little-endian, then the time, with no tag and no counter |
| Telemetry.CompactRoundTrip | esp/drone/src/esp_ikarus/main.rs:88-92 | the reference reader gets back the values and the time the record was built from |
| Telemetry.CompactBytesRoundTrip | esp/drone/src/esp_ikarus/main.rs:88-92 | every 26-byte string is the record of what it reads as |
| Heartbeat.Step | esp/remote/src/main.rs:51-70 | a tick sends one ping, records its time, and reports the connection lost exactly when a ping was outstanding; a pong clears the tracker and reports the round trip, or nothing when none was outstanding; a log changes nothing but the log |
| Heartbeat.Run | esp/remote/src/main.rs:49-70 | over a run of events the loop sends no more pings, and makes no more reports, than there are events |
| Heartbeat.RunTracksOutstanding | esp/remote/src/main.rs:49-70 | from the start, the tracker holds exactly the send time of the last ping not followed by a pong |
| Heartbeat.OnePingPerTick | esp/remote/src/main.rs:53-58 | exactly one ping goes out per tick and none otherwise |
| Heartbeat.LogLeavesTracker | esp/remote/src/main.rs:68-70 | a log message leaves the tracker as it was |
| Heartbeat.StrayPongIgnored | esp/remote/src/main.rs:59-67 | a pong with no ping outstanding changes nothing and reports nothing |
| Heartbeat.SilentTickLost | esp/remote/src/main.rs:53-58 | the second of two ticks with nothing between adds one connection-lost report, and the first adds one when a ping was outstanding before it |
| Heartbeat.PongThenTickQuiet | esp/remote/src/main.rs:53-67 | after a pong the next tick reports nothing |

## Left out

- SPI, DMA, GPIO, RMT and MCPWM setup is not modelled; each transfer is one step of a scripted bus.
- Chip-select handling and the 50 µs reset delay are not modelled.
- Embassy tasks, the zero-copy channels and the interrupt waits are not modelled. A task is a run over the events it receives, so releasing a channel slot before encoding is not modelled either.
- The float scale factors are not modelled (`MG_PER_LSB`, `DPS_PER_LSB`, the temperature formula). Samples keep their raw words, and telemetry records keep `f32` bit patterns.
- The atan2/sqrt leveling is a function parameter of `SensorFusion.Step`.
- Floating point in the PID, filter and mixer is real arithmetic: no rounding, no NaN and no infinity.
- The base64 codec is a decode function parameter of `Telemetry.AcceptLine`. `Telemetry.LineRoundTrip` assumes the pair round-trips and that its alphabet has no escape character and no marker.
- The logos lexer is not modelled: the parser reads a token stream.
- Rust's string-to-`f32` parsing is a function parameter.
- The `tui_input` line editor is a function parameter of `ControlTab.HandleEvent`.
- `ControlTab::draw`, the egui plotting, and the conversion of indices to `f64` are left out; they are drawing only.
- Log and debug text is not modelled, nor is the `static mut LAST` debug print in `encode_frame`. A logged transmission error is one trace event.
- The radio transport is not part of this model: ESP-NOW, the relay, and the frame codecs.
- The data-only message enums in the common crates are not part of this model. The request type follows the parser's own documentation.
- The defmt logger is left out; its point is concurrency.
- esp-ikarus/src/motors.rs is not part of this model. Its arm script duplicates the RMT driver's.
- `Instant::now()` readings are a script of clock values.
- Clock.DurationSince: saturates at zero for a clock reading earlier than the start, where embassy would panic; the firmware's monotonic clock never gives one.
- FlightLoop.IdleDuringWindow: requires the current instant to be below the last representable one. At the saturated end of time that instant itself is past the window.
- FlightLoop.Dispatch: a request other than `Ping` ends the loop, as `todo!()` does. What that code would do is not specified.
- Telemetry.DecodeCompact: the repository has no reader for the 26-byte record, so this is a reference reader written for the round trip.
- Telemetry.FromBytes: requires exactly 44 bytes, where the source asserts; callers only pass the 44 bytes after the tag.
- Bmi323.Configure: the `Init` error variant is declared in the source but never produced, and the model states that it never arises.
- Lsm6ds3Fifo.DrainConservesStream: stated only for the corrected reader, which makes both corrections under Findings (the transfer lands behind the leftover, and the tail is copied from byte `18 * n`), and only for loops whose polls stay in step. Out of step, the loop tags samples `Lagged` and does not realign them. As written, the transfer overwrites the leftover, and the copy carries bytes from the middle of the last sample sent.
- Lsm6ds3Fifo.ReplayConservesStream: stated only for the corrected reader with both corrections under Findings, over polls in step; as written, no leftover byte reaches a sample.
- Lsm6ds3Fifo.InSyncConservesStream: stated only for the corrected reader with both corrections under Findings; its new-leftover clause fails for the copy as written (AsWrittenCarriesMidSample).
- Lsm6ds3Fifo.Lag: the skip count the source computes is never used to move the cursor, so the model does not advance by it either.

## Findings

| source | as written | input that shows it | evidently intended | confidence | as-written member | corrected member |
|---|---|---|---|---|---|---|
| esp/drone/src/esp_ikarus/lsm6ds3.rs:146 | the FIFO read fills `buf[..end]` from index 0, overwriting the leftover bytes that line 219 copied to the front of the buffer | a reader in step with the FIFO, with word 0 of a sample left over (leftover 2 bytes, pattern 1) and 17 unread words: both samples sent start at FIFO word 1, and both are tagged `Ok` | read into `buf[start..end]`, behind the leftover, so that each sample starts on a sample boundary; a stream with nothing lost or repeated also needs the correction of the next row (InSyncConservesStream) | high, not executed | Lsm6ds3Fifo.IntoFrontMisalignsSamples | Lsm6ds3Fifo.AfterLeftoverAlignsSamples |
| esp/drone/src/esp_ikarus/lsm6ds3.rs:219 | `raw_samples_bytes` (line 187) is `raw_samples.as_flattened().len()`, which flattens the samples by one array level only and so counts two-byte words: the tail is copied from word offset `9 * n`, inside the samples just sent | a fresh reader, pattern 0, 11 words unread: one sample is sent and the two words left over are `buf[18..22]`, but `buf[9..13]` is carried to the front | copy from byte `18 * n`, the end of the whole samples; in the program as written the next transfer overwrites the carried bytes (line 146), so no sample shows the difference until that line is corrected too | high, not executed | Lsm6ds3Fifo.AsWrittenCarriesMidSample | Lsm6ds3Fifo.CorrectedCarriesRemainder |
