/**
  The LSM6DS3 IMU driver's register side: the SPI frames of register reads
  and writes, the verified write, the decoding of the four FIFO status
  registers, and the `configure` sequence with its error mapping.
 */
module Lsm6ds3 {
  import opened Wrappers
  import opened Bytes
  import opened Clock
  import opened ScriptedBus

  const READ: byte := 0x80
  const WRITE: byte := 0x7F

  const FIFO_CTRL1: byte := 0x06
  const FIFO_CTRL2: byte := 0x07
  const FIFO_CTRL3: byte := 0x08
  const FIFO_CTRL4: byte := 0x09
  const FIFO_CTRL5: byte := 0x0A
  const INT1_CTRL: byte := 0x0D
  const INT2_CTRL: byte := 0x0E
  const WHO_AM_I: byte := 0x0F
  const WHO_AM_I_VALUE: byte := 0x69
  const CTRL1_XL: byte := 0x10
  const CTRL2_G: byte := 0x11
  const CTRL3_C: byte := 0x12
  const CTRL4_C: byte := 0x13
  const CTRL5_C: byte := 0x14
  const CTRL6_C: byte := 0x15
  const CTRL9_XL: byte := 0x18
  const CTRL10_C: byte := 0x19
  const FIFO_STATUS1: byte := 0x3A
  const FIFO_DATA_OUT_L: byte := 0x3E

  // ---------------------------------------------------------------------
  // Register frames
  // ---------------------------------------------------------------------

  /** `read_register`: write `READ | reg`, then clock in one byte, which is the value. */
  function ReadRegister(bus: Bus, reg: byte): (r: Run<byte, SpiError>)
    ensures r.Done? <==>
      (|bus.replies| >= 2 && bus.replies[0] == Success([]) && bus.replies[1].Success? && |bus.replies[1].value| == 1)
    ensures r.Done? ==>
      (|bus.replies| >= 2 && bus.replies[1] == Success([r.value])
      && r.bus == Bus(bus.replies[2..], bus.clock, bus.log + [Write([READ | reg]), Read(1)]))
    ensures r.Failed? ==> Follows(bus, r.bus) && |r.bus.replies| < |bus.replies| && r.bus.clock == bus.clock
  {
    match Exchange(bus, Write([READ | reg]))
    case OffScript => OffScript
    case Failed(e, b) => Failed(e, b)
    case Done(_, b) =>
      match Exchange(b, Read(1))
      case OffScript => OffScript
      case Failed(e, b2) => FollowsTransitive(bus, b, b2); Failed(e, b2)
      case Done(v, b2) =>
        assert v == [v[0]];
        assert b2.replies == bus.replies[2..];
        Done(v[0], b2)
  }

  /** `write_register`: a single two-byte write `[WRITE & reg, val]`. */
  function WriteRegister(bus: Bus, reg: byte, val: byte): (r: Run<(), SpiError>)
    ensures r.Done? <==> |bus.replies| >= 1 && bus.replies[0] == Success([])
    ensures r.Done? ==> r.bus == Bus(bus.replies[1..], bus.clock, bus.log + [Write([WRITE & reg, val])])
    ensures r.Failed? ==> Follows(bus, r.bus) && |r.bus.replies| < |bus.replies| && r.bus.clock == bus.clock
  {
    match Exchange(bus, Write([WRITE & reg, val]))
    case OffScript => OffScript
    case Failed(e, b) => Failed(e, b)
    case Done(_, b) => Done((), b)
  }

  /** `CheckedWriteError`: the bus failed, or the value read back differs. */
  datatype CheckedWriteError = WriteSpi(cause: SpiError) | ReadBackDiffers

  /** `write_verify_register`: write, read the register back, compare. */
  function WriteVerifyRegister(bus: Bus, reg: byte, val: byte): (r: Run<(), CheckedWriteError>)
    ensures r.Done? || (r.Failed? && r.error.ReadBackDiffers?) ==>
      (|bus.replies| >= 3
      && r.bus == Bus(bus.replies[3..], bus.clock, bus.log + [Write([WRITE & reg, val]), Write([READ | reg]), Read(1)]))
    ensures r.Failed? ==> Follows(bus, r.bus) && |r.bus.replies| < |bus.replies| && r.bus.clock == bus.clock
  {
    match WriteRegister(bus, reg, val)
    case OffScript => OffScript
    case Failed(e, b) => Failed(WriteSpi(e), b)
    case Done(_, b) =>
      assert |b.replies| >= 2 ==> b.replies[2..] == bus.replies[3..];
      assert b.log + [Write([READ | reg]), Read(1)] == bus.log + [Write([WRITE & reg, val]), Write([READ | reg]), Read(1)];
      var r := ReadBack(b, reg, val);
      if r.Failed? then FollowsTransitive(bus, b, r.bus); r else r
  }

  /** The second half of a verified write: read the register and compare it with the value written. */
  function ReadBack(bus: Bus, reg: byte, val: byte): (r: Run<(), CheckedWriteError>)
    ensures r.Done? <==> (|bus.replies| >= 2 && bus.replies[0] == Success([]) && bus.replies[1] == Success([val]))
    ensures (r.Failed? && r.error.ReadBackDiffers?) <==>
      (|bus.replies| >= 2 && bus.replies[0] == Success([])
      && bus.replies[1].Success? && |bus.replies[1].value| == 1 && bus.replies[1].value[0] != val)
    ensures r.Done? || (r.Failed? && r.error.ReadBackDiffers?) ==>
      (|bus.replies| >= 2 && r.bus == Bus(bus.replies[2..], bus.clock, bus.log + [Write([READ | reg]), Read(1)]))
    ensures r.Failed? ==> Follows(bus, r.bus) && |r.bus.replies| < |bus.replies| && r.bus.clock == bus.clock
  {
    match ReadRegister(bus, reg)
    case OffScript => OffScript
    case Failed(e, b) => Failed(WriteSpi(e), b)
    case Done(v, b) =>
      assert Follows(bus, b);
      if val != v then Failed(ReadBackDiffers, b) else Done((), b)
  }

  /** A verified write succeeds exactly when the write is acknowledged and the read-back is the value written. */
  lemma WriteVerifyAccepts(bus: Bus, reg: byte, val: byte)
    ensures WriteVerifyRegister(bus, reg, val).Done? <==>
      (|bus.replies| >= 3 && bus.replies[0] == Success([]) && bus.replies[1] == Success([])
      && bus.replies[2] == Success([val]))
  {
    var w := WriteRegister(bus, reg, val);
    if w.Done? {
      assert w.bus.replies == bus.replies[1..];
      var rb := ReadBack(w.bus, reg, val);
      assert WriteVerifyRegister(bus, reg, val) == rb;
    }
  }

  /** A verified write reports `ReadBackDiffers` exactly when the bus works and the byte read back is another one. */
  lemma WriteVerifyRejects(bus: Bus, reg: byte, val: byte)
    ensures var r := WriteVerifyRegister(bus, reg, val);
      (r.Failed? && r.error.ReadBackDiffers?) <==>
      (|bus.replies| >= 3 && bus.replies[0] == Success([]) && bus.replies[1] == Success([])
      && bus.replies[2].Success? && |bus.replies[2].value| == 1 && bus.replies[2].value[0] != val)
  {
    var w := WriteRegister(bus, reg, val);
    if w.Done? {
      assert w.bus.replies == bus.replies[1..];
      var rb := ReadBack(w.bus, reg, val);
      assert WriteVerifyRegister(bus, reg, val) == rb;
    }
  }

  // ---------------------------------------------------------------------
  // FIFO status
  // ---------------------------------------------------------------------

  datatype FifoStatus = FifoStatus(
    unreadWords: nat, threshold: bool, overRun: bool, full: bool, empty: bool, pattern: nat)

  /** Bit `i` of a byte, as the flag tests `b & (1 << i) > 0` read it. */
  predicate Flag(b: byte, i: bv8)
    requires i < 8
  {
    (b & (1 << i)) != 0
  }

  /**
    `fifo_status` decoding of the five bytes clocked in after `READ | FIFO_STATUS1`:
    the first is skipped, the unread count is the little-endian 12-bit value of
    the next two, the flags are the top four bits of the third, and the pattern
    is the little-endian 10-bit value of the last two.
   */
  function DecodeFifoStatus(raw: seq<byte>): (s: FifoStatus)
    requires |raw| == 5
    ensures s.unreadWords < 4096 && s.pattern < 1024
  {
    FifoStatus(
      (raw[1] as int) + 256 * ((raw[2] & 0x0F) as int),
      Flag(raw[2], 7), Flag(raw[2], 6), Flag(raw[2], 5), Flag(raw[2], 4),
      (raw[3] as int) + 256 * ((raw[4] & 0x03) as int))
  }

  /** The byte holding a value below 256, counted up one step at a time. */
  function ToByte(n: nat): (b: byte)
    requires n < 256
    ensures b as int == n
    decreases n
  {
    if n == 0 then 0
    else
      var below := ToByte(n - 1);
      assert below as int < 255;
      below + 1
  }

  /** The low byte of a 16-bit quantity. */
  function LowByte(n: nat): (b: byte)
    requires n < 0x1_0000
    ensures b as int == n % 256
  {
    ToByte(n % 256)
  }

  /** The high byte of a 16-bit quantity. */
  function HighByte(n: nat): (b: byte)
    requires n < 0x1_0000
    ensures b as int == n / 256
  {
    ToByte(n / 256)
  }

  /** The flag nibble of FIFO_STATUS2 above a four-bit count. */
  function FlagsAbove(t: bool, o: bool, f: bool, e: bool, hi: byte): (b: byte)
    requires hi < 16
    ensures (b & 0x0F) == hi
    ensures Flag(b, 7) == t && Flag(b, 6) == o && Flag(b, 5) == f && Flag(b, 4) == e
  {
    (if t then 0x80 else 0) | (if o then 0x40 else 0) | (if f then 0x20 else 0) | (if e then 0x10 else 0) | hi
  }

  lemma SmallByte(b: byte, n: int)
    requires b as int == n && n < 16
    ensures b < 16 && (b & 0x03) as int == n % 4
  {
  }

  /** The register bytes a FIFO status is read from (the skipped first byte is 0). */
  function EncodeFifoStatus(s: FifoStatus): (raw: seq<byte>)
    requires s.unreadWords < 4096 && s.pattern < 1024
    ensures |raw| == 5
  {
    var hi := HighByte(s.unreadWords);
    SmallByte(hi, s.unreadWords / 256);
    [0, LowByte(s.unreadWords), FlagsAbove(s.threshold, s.overRun, s.full, s.empty, hi),
     LowByte(s.pattern), HighByte(s.pattern)]
  }

  lemma FifoStatusRoundTrip(s: FifoStatus)
    requires s.unreadWords < 4096 && s.pattern < 1024
    ensures DecodeFifoStatus(EncodeFifoStatus(s)) == s
  {
    UnreadRoundTrip(s);
    PatternRoundTrip(s);
  }

  lemma UnreadRoundTrip(s: FifoStatus)
    requires s.unreadWords < 4096 && s.pattern < 1024
    ensures DecodeFifoStatus(EncodeFifoStatus(s)).unreadWords == s.unreadWords
  {
    var raw := EncodeFifoStatus(s);
    var high := HighByte(s.unreadWords);
    assert raw[2] & 0x0F == high;
    assert (raw[1] as int) + 256 * (high as int) == s.unreadWords % 256 + 256 * (s.unreadWords / 256);
  }

  lemma PatternRoundTrip(s: FifoStatus)
    requires s.unreadWords < 4096 && s.pattern < 1024
    ensures DecodeFifoStatus(EncodeFifoStatus(s)).pattern == s.pattern
  {
    var raw := EncodeFifoStatus(s);
    var high := HighByte(s.pattern);
    SmallByte(high, s.pattern / 256);
    assert (raw[3] as int) + 256 * ((high & 0x03) as int) == s.pattern % 256 + 256 * (s.pattern / 256);
  }

  /** The first byte and the unused high bits of the pattern registers never affect the status. */
  lemma FifoStatusIgnores(raw: seq<byte>, other: seq<byte>)
    requires |raw| == |other| == 5
    requires raw[1..4] == other[1..4] && (raw[4] & 0x03) == (other[4] & 0x03)
    ensures DecodeFifoStatus(raw) == DecodeFifoStatus(other)
  {
    assert raw[1] == other[1] && raw[2] == other[2] && raw[3] == other[3] by {
      assert raw[1..4][0] == raw[1] && raw[1..4][1] == raw[2] && raw[1..4][2] == raw[3];
    }
  }

  /** `fifo_status`: one transfer that writes `READ | FIFO_STATUS1` and clocks in five bytes. */
  function ReadFifoStatus(bus: Bus): (r: Run<FifoStatus, SpiError>)
    ensures r.Done? <==> |bus.replies| >= 1 && bus.replies[0].Success? && |bus.replies[0].value| == 5
    ensures r.Done? ==>
      (r.value == DecodeFifoStatus(bus.replies[0].value)
      && r.bus == Bus(bus.replies[1..], bus.clock, bus.log + [Transfer([READ | FIFO_STATUS1], 5)]))
    ensures r.Failed? ==> Follows(bus, r.bus) && |r.bus.replies| < |bus.replies| && r.bus.clock == bus.clock
  {
    var t :- Exchange(bus, Transfer([READ | FIFO_STATUS1], 5));
    Done(DecodeFifoStatus(t.0), t.1)
  }

  /** `read_fifo`: write `READ | FIFO_DATA_OUT_L`, then clock in `count` bytes. */
  function ReadFifo(bus: Bus, count: nat): (r: Run<seq<byte>, SpiError>)
    ensures r.Done? <==>
      (|bus.replies| >= 2 && bus.replies[0] == Success([]) && bus.replies[1].Success? && |bus.replies[1].value| == count)
    ensures r.Done? ==>
      (r.value == bus.replies[1].value
      && r.bus == Bus(bus.replies[2..], bus.clock, bus.log + [Write([READ | FIFO_DATA_OUT_L]), Read(count)]))
    ensures r.Failed? ==> Follows(bus, r.bus) && |r.bus.replies| < |bus.replies| && r.bus.clock == bus.clock
  {
    var w :- Exchange(bus, Write([READ | FIFO_DATA_OUT_L]));
    var d :- Exchange(w.1, Read(count));
    Done(d.0, d.1)
  }

  // ---------------------------------------------------------------------
  // configure
  // ---------------------------------------------------------------------

  datatype ConfigurationError = Spi(cause: SpiError) | Verification(write: CheckedWriteError) | InvalidChip | Timeout

  const BDU: byte := 1 << 6
  const IF_INC: byte := 1 << 2
  const SW_RESET: byte := 1
  /** Rounding mode; the literal is decimal 110, whose low three bits shifted up equal `0b110 << 5`. */
  const ROUNDING: byte := 110 << 5

  /** The verified writes of `configure`, in order, after the reset. */
  const InitWrites: seq<(byte, byte)> := [
    (CTRL3_C, BDU | IF_INC),
    (CTRL1_XL, (0x8 << 4) | (0x3 << 2) | (0x2 << 2)),
    (CTRL2_G, (0x8 << 4) | (0x2 << 2)),
    (CTRL4_C, (1 << 7) | (1 << 4) | (1 << 2)),
    (CTRL5_C, ROUNDING),
    (CTRL9_XL, 0x7 << 3),
    (CTRL10_C, 0x7 << 3),
    (FIFO_CTRL1, 36),
    (FIFO_CTRL2, 0),
    (FIFO_CTRL3, (0x1 << 3) | 0x1),
    (FIFO_CTRL4, 0x1 << 3),
    (FIFO_CTRL5, (0x8 << 3) | 0x6),
    (INT1_CTRL, 1 << 3),
    (INT2_CTRL, 1 << 5)
  ]

  /** The decimal rounding literal selects the same mode as the binary `0b110`. */
  lemma RoundingLiteral()
    ensures ROUNDING == 0x6 << 5 == 0xC0
  {
  }

  /**
    The reset wait: read CTRL3_C until it is exactly `IF_INC`; a read error is
    retried like any other value; once a clock reading shows a whole second since
    `start`, the wait gives up with `Timeout`.
   */
  function AwaitReset(bus: Bus, start: Ticks): (r: Run<(), ConfigurationError>)
    ensures r.Done? || r.Failed? ==> Follows(bus, r.bus)
    ensures r.Done? ==> |r.bus.replies| < |bus.replies| && LastReply(bus, r.bus) == Success([IF_INC])
    ensures r.Failed? ==>
      (r.error == Timeout && |r.bus.clock| < |bus.clock|
      && AsSecs(DurationSince(LastReading(bus, r.bus), start)) >= 1)
    decreases |bus.replies|, 1
  {
    match ReadRegister(bus, CTRL3_C)
    case OffScript => OffScript
    case Done(v, b) =>
      if v == IF_INC then Done((), b)
      else
        var r := TimeoutOrRetry(b, start);
        if r.Done? || r.Failed? then FollowsChain(bus, b, r.bus); r else r
    case Failed(_, b) =>
      var r := TimeoutOrRetry(b, start);
      if r.Done? || r.Failed? then FollowsChain(bus, b, r.bus); r else r
  }

  /** The tail of one reset-wait iteration: check the clock, then either give up or read again. */
  function TimeoutOrRetry(bus: Bus, start: Ticks): (r: Run<(), ConfigurationError>)
    ensures r.Done? || r.Failed? ==> Follows(bus, r.bus)
    ensures r.Done? ==> |r.bus.replies| < |bus.replies| && LastReply(bus, r.bus) == Success([IF_INC])
    ensures r.Failed? ==>
      (r.error == Timeout && |r.bus.clock| < |bus.clock|
      && AsSecs(DurationSince(LastReading(bus, r.bus), start)) >= 1)
    decreases |bus.replies|, 2
  {
    match Now<ConfigurationError>(bus)
    case Done(now, b) =>
      if AsSecs(DurationSince(now, start)) >= 1 then Failed(Timeout, b)
      else
        var r := AwaitReset(b, start);
        if r.Done? || r.Failed? then FollowsChain(bus, b, r.bus); r else r
    case _ => OffScript
  }

  /** The verified writes after the reset, in order; each failure becomes a `Verification` error. */
  function VerifyAll(bus: Bus, writes: seq<(byte, byte)>): (r: Run<(), ConfigurationError>)
    ensures r.Failed? ==> r.error.Verification?
    ensures r.Done? || r.Failed? ==> Follows(bus, r.bus) && r.bus.clock == bus.clock
    decreases |writes|
  {
    if |writes| == 0 then Done((), bus)
    else
      match WriteVerifyRegister(bus, writes[0].0, writes[0].1)
      case OffScript => OffScript
      case Failed(e, b) => Failed(Verification(e), b)
      case Done(_, b) =>
        var r := VerifyAll(b, writes[1..]);
        if r.Done? || r.Failed? then FollowsTransitive(bus, b, r.bus); r else r
  }

  /** The three plain writes that power the gyroscope down, select high-performance mode and reset the chip. */
  const ResetWrites: seq<(byte, byte)> := [(CTRL2_G, 0), (CTRL6_C, 0), (CTRL3_C, SW_RESET)]

  /**
    `configure`: identify the chip by WHO_AM_I, reset it, wait for the reset
    to finish, then perform the verified configuration writes.  Bus errors
    of the identification and the reset writes are `Spi` errors.
   */
  function Configure(bus: Bus): (r: Run<(), ConfigurationError>)
    ensures (r.Failed? && r.error.InvalidChip?) <==>
      (|bus.replies| >= 2 && bus.replies[0] == Success([]) && bus.replies[1].Success?
      && |bus.replies[1].value| == 1 && bus.replies[1].value[0] != WHO_AM_I_VALUE)
    ensures r.Failed? && r.error.InvalidChip? ==>
      r.bus.log == bus.log + [Write([READ | WHO_AM_I]), Read(1)]
  {
    match ReadRegister(bus, WHO_AM_I)
    case OffScript => OffScript
    case Failed(e, b) => Failed(Spi(e), b)
    case Done(who, b) => if who != WHO_AM_I_VALUE then Failed(InvalidChip, b) else ResetAndInit(b)
  }

  /** `configure` after the chip is identified: the reset writes, the reset wait, the verified writes. */
  function ResetAndInit(bus: Bus): (r: Run<(), ConfigurationError>)
    ensures r.Failed? ==> !r.error.InvalidChip?
  {
    match PlainWrites(bus, ResetWrites)
    case OffScript => OffScript
    case Failed(e, b) => Failed(Spi(e), b)
    case Done(_, b) =>
      match Now<ConfigurationError>(b)
      case Done(start, b2) =>
        (match AwaitReset(b2, start)
         case Done(_, b3) => VerifyAll(b3, InitWrites)
         case other => other)
      case _ => OffScript
  }

  /** Unverified register writes in order, stopping at the first bus error. */
  function PlainWrites(bus: Bus, writes: seq<(byte, byte)>): (r: Run<(), SpiError>)
    ensures r.Done? || r.Failed? ==> Follows(bus, r.bus) && r.bus.clock == bus.clock
    decreases |writes|
  {
    if |writes| == 0 then Done((), bus)
    else
      match WriteRegister(bus, writes[0].0, writes[0].1)
      case OffScript => OffScript
      case Failed(e, b) => Failed(e, b)
      case Done(_, b) =>
        var r := PlainWrites(b, writes[1..]);
        if r.Done? || r.Failed? then FollowsTransitive(bus, b, r.bus); r else r
  }

  // ---------------------------------------------------------------------
  // configure against a chip that behaves
  // ---------------------------------------------------------------------

  /** What `write_register` puts on the wire for each write: the register masked with `WRITE`, then the value. */
  function Masked(writes: seq<(byte, byte)>): (m: seq<(byte, byte)>)
    ensures |m| == |writes|
  {
    if |writes| == 0 then [] else [(WRITE & writes[0].0, writes[0].1)] + Masked(writes[1..])
  }

  /** Every register `configure` writes lies below 0x80, so the `WRITE` mask leaves it unchanged. */
  lemma MaskKeepsRegisters()
    ensures Masked(ResetWrites) == ResetWrites
    ensures Masked(InitWrites) == InitWrites
  {
    MaskBelow(ResetWrites);
    MaskBelow(InitWrites);
  }

  lemma {:induction false} MaskBelow(writes: seq<(byte, byte)>)
    requires forall i :: 0 <= i < |writes| ==> writes[i].0 < 0x80
    ensures Masked(writes) == writes
    decreases |writes|
  {
    if |writes| > 0 {
      MaskKeepsByte(writes[0].0);
      MaskBelow(writes[1..]);
      assert Masked(writes) == [writes[0]] + writes[1..];
    }
  }

  /** The `WRITE` mask only clears the top bit. */
  lemma MaskKeepsByte(b: byte)
    requires b < 0x80
    ensures WRITE & b == b
  {
  }

  /** Replies of a bus that acknowledges every write. */
  function Acks(n: nat): (rs: seq<Result<seq<byte>, SpiError>>)
    ensures |rs| == n && forall i :: 0 <= i < n ==> rs[i] == Success([])
  {
    seq(n, _ => Success([]))
  }

  /** Replies of a chip that accepts every verified write and reads back what was written. */
  function VerifyReplies(writes: seq<(byte, byte)>): (rs: seq<Result<seq<byte>, SpiError>>)
    ensures |rs| == 3 * |writes|
  {
    if |writes| == 0 then [] else [Success([]), Success([]), Success([writes[0].1])] + VerifyReplies(writes[1..])
  }

  lemma VerifiedWriteLog(log: seq<Op>, reg: byte, val: byte)
    ensures ByteWrites(log + [Write([WRITE & reg, val]), Write([READ | reg]), Read(1)])
      == ByteWrites(log) + [(WRITE & reg, val)]
  {
    ByteWritesPush(log, WRITE & reg, val);
    ByteWritesSkip(log + [Write([WRITE & reg, val])], Write([READ | reg]));
    ByteWritesSkip(log + [Write([WRITE & reg, val]), Write([READ | reg])], Read(1));
    assert log + [Write([WRITE & reg, val])] + [Write([READ | reg])] == log + [Write([WRITE & reg, val]), Write([READ | reg])];
    assert log + [Write([WRITE & reg, val]), Write([READ | reg])] + [Read(1)]
      == log + [Write([WRITE & reg, val]), Write([READ | reg]), Read(1)];
  }

  lemma ReadLog(log: seq<Op>, reg: byte)
    ensures ByteWrites(log + [Write([READ | reg]), Read(1)]) == ByteWrites(log)
  {
    ByteWritesSkip(log, Write([READ | reg]));
    ByteWritesSkip(log + [Write([READ | reg])], Read(1));
    assert log + [Write([READ | reg])] + [Read(1)] == log + [Write([READ | reg]), Read(1)];
  }

  lemma MaskedLog(before: seq<(byte, byte)>, middle: seq<(byte, byte)>, after: seq<(byte, byte)>, writes: seq<(byte, byte)>)
    requires |writes| > 0
    requires middle == before + [(WRITE & writes[0].0, writes[0].1)]
    requires after == middle + Masked(writes[1..])
    ensures after == before + Masked(writes)
  {
  }

  /** One accepted verified write: the rest of the writes continue on the bus after it. */
  lemma VerifyAllStep(bus: Bus, writes: seq<(byte, byte)>, rest: seq<Result<seq<byte>, SpiError>>) returns (next: Bus)
    requires |writes| > 0 && bus.replies == VerifyReplies(writes) + rest
    ensures VerifyAll(bus, writes) == VerifyAll(next, writes[1..])
    ensures next.replies == VerifyReplies(writes[1..]) + rest && next.clock == bus.clock
    ensures next.log == bus.log + [Write([WRITE & writes[0].0, writes[0].1]), Write([READ | writes[0].0]), Read(1)]
  {
    var (reg, val) := writes[0];
    var w := WriteVerifyRegister(bus, reg, val);
    assert bus.replies[..3] == [Success([]), Success([]), Success([val])]
      && bus.replies[3..] == VerifyReplies(writes[1..]) + rest;
    assert w.Done? by {
      WriteVerifyAccepts(bus, reg, val);
    }
    next := w.bus;
  }

  lemma {:induction false} VerifyAllHonest(bus: Bus, writes: seq<(byte, byte)>, rest: seq<Result<seq<byte>, SpiError>>)
    requires bus.replies == VerifyReplies(writes) + rest
    ensures var r := VerifyAll(bus, writes);
      r.Done? && r.bus.replies == rest && r.bus.clock == bus.clock
      && ByteWrites(r.bus.log) == ByteWrites(bus.log) + Masked(writes)
    decreases |writes|
  {
    if |writes| == 0 {
      assert Masked(writes) == [];
    } else {
      var next := VerifyAllStep(bus, writes, rest);
      VerifyAllHonest(next, writes[1..], rest);
      var r := VerifyAll(next, writes[1..]);
      assert ByteWrites(r.bus.log) == ByteWrites(bus.log) + Masked(writes) by {
        VerifiedWriteLog(bus.log, writes[0].0, writes[0].1);
        MaskedLog(ByteWrites(bus.log), ByteWrites(next.log), ByteWrites(r.bus.log), writes);
      }
    }
  }

  /** One acknowledged plain write: the rest of the writes continue on the bus after it. */
  lemma PlainWritesStep(bus: Bus, writes: seq<(byte, byte)>, rest: seq<Result<seq<byte>, SpiError>>) returns (next: Bus)
    requires |writes| > 0 && bus.replies == Acks(|writes|) + rest
    ensures PlainWrites(bus, writes) == PlainWrites(next, writes[1..])
    ensures next.replies == Acks(|writes| - 1) + rest && next.clock == bus.clock
    ensures next.log == bus.log + [Write([WRITE & writes[0].0, writes[0].1])]
  {
    next := WriteRegister(bus, writes[0].0, writes[0].1).bus;
    assert next.replies == Acks(|writes| - 1) + rest;
  }

  lemma {:induction false} PlainWritesHonest(bus: Bus, writes: seq<(byte, byte)>, rest: seq<Result<seq<byte>, SpiError>>)
    requires bus.replies == Acks(|writes|) + rest
    ensures var r := PlainWrites(bus, writes);
      r.Done? && r.bus.replies == rest && r.bus.clock == bus.clock
      && ByteWrites(r.bus.log) == ByteWrites(bus.log) + Masked(writes)
    decreases |writes|
  {
    if |writes| == 0 {
      assert Masked(writes) == [];
    } else {
      var next := PlainWritesStep(bus, writes, rest);
      PlainWritesHonest(next, writes[1..], rest);
      var r := PlainWrites(next, writes[1..]);
      assert ByteWrites(r.bus.log) == ByteWrites(bus.log) + Masked(writes) by {
        ByteWritesPush(bus.log, WRITE & writes[0].0, writes[0].1);
        MaskedLog(ByteWrites(bus.log), ByteWrites(next.log), ByteWrites(r.bus.log), writes);
      }
    }
  }

  // ---------------------------------------------------------------------
  // The register writes of every successful run
  // ---------------------------------------------------------------------

  /** A register read, whether it succeeds or fails, puts no register write on the wire. */
  lemma ReadRegisterLogs(bus: Bus, reg: byte)
    ensures var r := ReadRegister(bus, reg);
      r.Done? || r.Failed? ==> ByteWrites(r.bus.log) == ByteWrites(bus.log)
  {
    var e := Exchange(bus, Write([READ | reg]));
    if e.Done? || e.Failed? {
      ByteWritesSkip(bus.log, Write([READ | reg]));
      if e.Done? {
        var e2 := Exchange(e.bus, Read(1));
        if e2.Done? || e2.Failed? {
          ByteWritesSkip(e.bus.log, Read(1));
        }
      }
    }
  }

  /** The reset wait only reads, however many polls and retried read errors it takes. */
  lemma {:induction false} AwaitResetLogs(bus: Bus, start: Ticks)
    ensures AwaitReset(bus, start).Done? ==> ByteWrites(AwaitReset(bus, start).bus.log) == ByteWrites(bus.log)
    decreases |bus.replies|, 1
  {
    var rd := ReadRegister(bus, CTRL3_C);
    ReadRegisterLogs(bus, CTRL3_C);
    if rd.Failed? || (rd.Done? && rd.value != IF_INC) {
      TimeoutOrRetryLogs(rd.bus, start);
    }
  }

  lemma {:induction false} TimeoutOrRetryLogs(bus: Bus, start: Ticks)
    ensures TimeoutOrRetry(bus, start).Done? ==> ByteWrites(TimeoutOrRetry(bus, start).bus.log) == ByteWrites(bus.log)
    decreases |bus.replies|, 2
  {
    match Now<ConfigurationError>(bus)
    case Done(now, b) =>
      if AsSecs(DurationSince(now, start)) < 1 {
        AwaitResetLogs(b, start);
      }
    case _ =>
  }

  /** A run of verified writes that succeeds puts exactly its masked writes on the wire. */
  lemma {:induction false} VerifyAllLogs(bus: Bus, writes: seq<(byte, byte)>)
    ensures VerifyAll(bus, writes).Done? ==>
      ByteWrites(VerifyAll(bus, writes).bus.log) == ByteWrites(bus.log) + Masked(writes)
    decreases |writes|
  {
    if |writes| == 0 {
      assert Masked(writes) == [];
    } else {
      var w := WriteVerifyRegister(bus, writes[0].0, writes[0].1);
      if w.Done? {
        VerifyAllLogs(w.bus, writes[1..]);
        var r := VerifyAll(w.bus, writes[1..]);
        if r.Done? {
          VerifiedWriteLog(bus.log, writes[0].0, writes[0].1);
          MaskedLog(ByteWrites(bus.log), ByteWrites(w.bus.log), ByteWrites(r.bus.log), writes);
        }
      }
    }
  }

  /** A run of plain writes that succeeds puts exactly its masked writes on the wire. */
  lemma {:induction false} PlainWritesLogs(bus: Bus, writes: seq<(byte, byte)>)
    ensures PlainWrites(bus, writes).Done? ==>
      ByteWrites(PlainWrites(bus, writes).bus.log) == ByteWrites(bus.log) + Masked(writes)
    decreases |writes|
  {
    if |writes| == 0 {
      assert Masked(writes) == [];
    } else {
      var w := WriteRegister(bus, writes[0].0, writes[0].1);
      if w.Done? {
        PlainWritesLogs(w.bus, writes[1..]);
        var r := PlainWrites(w.bus, writes[1..]);
        if r.Done? {
          ByteWritesPush(bus.log, WRITE & writes[0].0, writes[0].1);
          MaskedLog(ByteWrites(bus.log), ByteWrites(w.bus.log), ByteWrites(r.bus.log), writes);
        }
      }
    }
  }

  lemma ResetAndInitLogs(bus: Bus)
    ensures ResetAndInit(bus).Done? ==>
      ByteWrites(ResetAndInit(bus).bus.log) == ByteWrites(bus.log) + ResetWrites + InitWrites
  {
    MaskKeepsRegisters();
    var plain := PlainWrites(bus, ResetWrites);
    PlainWritesLogs(bus, ResetWrites);
    if plain.Done? && |plain.bus.clock| > 0 {
      var start := plain.bus.clock[0];
      var b2 := plain.bus.(clock := plain.bus.clock[1..]);
      var wait := AwaitReset(b2, start);
      AwaitResetLogs(b2, start);
      if wait.Done? {
        VerifyAllLogs(wait.bus, InitWrites);
      }
    }
  }

  /**
    Every run of `configure` that succeeds, however long the reset wait polls
    and whatever read errors it retries, writes exactly the reset writes
    followed by the configuration writes, in order, and nothing else.
   */
  lemma ConfigureLogs(bus: Bus)
    ensures Configure(bus).Done? ==>
      ByteWrites(Configure(bus).bus.log) == ByteWrites(bus.log) + ResetWrites + InitWrites
  {
    var who := ReadRegister(bus, WHO_AM_I);
    ReadRegisterLogs(bus, WHO_AM_I);
    if who.Done? && who.value == WHO_AM_I_VALUE {
      ResetAndInitLogs(who.bus);
    }
  }

  /** The replies of an LSM6DS3 that identifies itself, finishes its reset at once and keeps every value written. */
  function HonestReplies(): seq<Result<seq<byte>, SpiError>> {
    [Success([]), Success([WHO_AM_I_VALUE])] + Acks(|ResetWrites|) + [Success([]), Success([IF_INC])]
      + VerifyReplies(InitWrites)
  }

  /** A chip whose reset is already over: the reset wait reads CTRL3_C once and is done. */
  lemma AwaitResetHonest(bus: Bus, start: Ticks, rest: seq<Result<seq<byte>, SpiError>>)
    requires bus.replies == [Success([]), Success([IF_INC])] + rest
    ensures var r := AwaitReset(bus, start);
      r.Done? && r.bus.replies == rest && r.bus.clock == bus.clock
      && ByteWrites(r.bus.log) == ByteWrites(bus.log)
  {
    assert bus.replies[2..] == rest;
    ReadLog(bus.log, CTRL3_C);
  }

  /** After identification, a chip that behaves takes the reset writes, resets at once and keeps every value. */
  lemma ResetAndInitHonest(bus: Bus, rest: seq<Result<seq<byte>, SpiError>>)
    requires bus.replies == Acks(|ResetWrites|) + ([Success([]), Success([IF_INC])] + VerifyReplies(InitWrites) + rest)
    requires |bus.clock| >= 1
    ensures var r := ResetAndInit(bus);
      r.Done? && r.bus.replies == rest && r.bus.clock == bus.clock[1..]
      && ByteWrites(r.bus.log) == ByteWrites(bus.log) + ResetWrites + InitWrites
  {
    MaskKeepsRegisters();
    var tail := VerifyReplies(InitWrites) + rest;
    PlainWritesHonest(bus, ResetWrites, [Success([]), Success([IF_INC])] + tail);
    var plain := PlainWrites(bus, ResetWrites);
    var start := plain.bus.clock[0];
    var b3 := plain.bus.(clock := plain.bus.clock[1..]);
    assert Now<ConfigurationError>(plain.bus) == Done(start, b3);
    AwaitResetHonest(b3, start, tail);
    var wait := AwaitReset(b3, start);
    assert ResetAndInit(bus) == VerifyAll(wait.bus, InitWrites);
    VerifyAllHonest(wait.bus, InitWrites, rest);
  }

  /**
    Against a chip that behaves, `configure` succeeds, reads the clock once,
    and the register writes on the wire are the reset writes followed by the
    configuration writes, each exactly once and in order.
   */
  lemma ConfigureHonestChip(bus: Bus, rest: seq<Result<seq<byte>, SpiError>>)
    requires bus.replies == HonestReplies() + rest && |bus.clock| >= 1
    ensures var r := Configure(bus);
      r.Done? && r.bus.replies == rest && r.bus.clock == bus.clock[1..]
      && ByteWrites(r.bus.log) == ByteWrites(bus.log) + ResetWrites + InitWrites
  {
    var after := Acks(|ResetWrites|) + ([Success([]), Success([IF_INC])] + VerifyReplies(InitWrites) + rest);
    assert bus.replies == [Success([]), Success([WHO_AM_I_VALUE])] + after;
    var who := ReadRegister(bus, WHO_AM_I);
    assert who.Done? && who.value == WHO_AM_I_VALUE;
    assert who.bus.replies == after;
    assert Configure(bus) == ResetAndInit(who.bus);
    ReadLog(bus.log, WHO_AM_I);
    ResetAndInitHonest(who.bus, rest);
  }
}
