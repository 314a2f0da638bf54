/**
  The BMI323 IMU driver's register side.  Registers are 16 bits wide: a read
  is one four-byte in-place transfer whose last two bytes carry the value
  little-endian, a write is one three-byte frame.  `configure` identifies the
  chip, resets it, waits for power-up, runs the self-test and the
  self-calibration, then writes and verifies the operating registers.
 */
module Bmi323 {
  import opened Wrappers
  import opened Bytes
  import opened Clock
  import opened ScriptedBus

  const READ: byte := 0x80
  const WRITE: byte := 0x7F

  const CHIP_ID: byte := 0x00
  const CHIP_ID_VALID: bv16 := 0x0043
  const ERROR: byte := 0x01
  const STATUS: byte := 0x02
  const INT_STATUS2: byte := 0x0E
  const IO_INT_CTRL: byte := 0x38
  const INT_MAP2: byte := 0x3B
  const FIFO_FILL_LEVEL: byte := 0x15
  const FIFO_DATA: byte := 0x16
  const FIFO_WATERMARK: byte := 0x35
  const FIFO_CONF: byte := 0x36
  const FIFO_CTRL: byte := 0x37
  const FIFO_FLUSH: bv16 := 1
  const ACC_CONF: byte := 0x20
  const GYR_CONF: byte := 0x21
  const FEATURE_CTRL: byte := 0x40
  const FEATURE_IO1: byte := 0x11
  const CMD: byte := 0x7E

  /** Accelerometer range ±8 g and gyroscope range ±2000 °/s, in their configuration fields. */
  const ACC_RANGE: bv16 := 0x2 << 4
  const GYR_RANGE: bv16 := 0x4 << 4

  /** Words per FIFO sample: three accelerometer, three gyroscope, one time word. */
  const WordsPerSample: nat := 7

  // ---------------------------------------------------------------------
  // Register frames
  // ---------------------------------------------------------------------

  /** The bytes `read_register` shifts out: the address with the read bit, then three dummy bytes. */
  function ReadFrame(reg: byte): seq<byte> {
    [READ | reg, 0, 0, 0]
  }

  /** `read_register`: one in-place transfer; the value is bytes 2 and 3, little-endian. */
  function ReadRegister(bus: Bus, reg: byte): (r: Run<bv16, SpiError>)
    ensures r.Done? <==> (|bus.replies| > 0 && bus.replies[0].Success? && |bus.replies[0].value| == 4)
    ensures r.Done? ==>
      (r.value == FromLe16(bus.replies[0].value[2], bus.replies[0].value[3])
      && r.bus == Bus(bus.replies[1..], bus.clock, bus.log + [Transfer(ReadFrame(reg), 4)]))
    ensures r.Failed? ==> Follows(bus, r.bus) && |r.bus.replies| < |bus.replies| && r.bus.clock == bus.clock
  {
    match Exchange(bus, Transfer(ReadFrame(reg), 4))
    case OffScript => OffScript
    case Failed(e, b) => Failed(e, b)
    case Done(bytes, b) => Done(FromLe16(bytes[2], bytes[3]), b)
  }

  /** A successful read moves the bus one reply forward, and that reply is the one whose value it returns. */
  lemma ReadIsLastReply(bus: Bus, reg: byte)
    requires ReadRegister(bus, reg).Done?
    ensures var r := ReadRegister(bus, reg);
      Follows(bus, r.bus) && |r.bus.replies| < |bus.replies| && LastReply(bus, r.bus).Success?
      && |LastReply(bus, r.bus).value| == 4 && Reading(LastReply(bus, r.bus)) == r.value
  {
  }

  /** The bytes `write_register` sends: the address masked with `WRITE`, then the value little-endian. */
  function WriteFrame(reg: byte, val: bv16): (f: seq<byte>)
    ensures |f| == 3
  {
    [WRITE & reg] + ToLe16(val)
  }

  /** A write frame carries the register without its read bit and the value it writes. */
  lemma WriteFrameLayout(reg: byte, val: bv16)
    ensures WriteFrame(reg, val)[0] & READ == 0
    ensures FromLe16(WriteFrame(reg, val)[1], WriteFrame(reg, val)[2]) == val
  {
    Le16RoundTrip(val);
  }

  /** `write_register`: one three-byte write. */
  function WriteRegister(bus: Bus, reg: byte, val: bv16): (r: Run<(), SpiError>)
    ensures r.Done? <==> (|bus.replies| > 0 && bus.replies[0] == Success([]))
    ensures r.Done? ==> r.bus == Bus(bus.replies[1..], bus.clock, bus.log + [Write(WriteFrame(reg, val))])
    ensures r.Failed? ==> Follows(bus, r.bus) && |r.bus.replies| < |bus.replies| && r.bus.clock == bus.clock
  {
    match Exchange(bus, Write(WriteFrame(reg, val)))
    case OffScript => OffScript
    case Failed(e, b) => Failed(e, b)
    case Done(_, b) => Done((), b)
  }

  datatype CheckedWriteError = WriteSpi(cause: SpiError) | ReadBackDiffers

  /** The read-back half of `write_verify_register`. */
  function ReadBack(bus: Bus, reg: byte, val: bv16): (r: Run<(), CheckedWriteError>)
    ensures r.Done? <==>
      (|bus.replies| > 0 && bus.replies[0].Success? && |bus.replies[0].value| == 4
      && FromLe16(bus.replies[0].value[2], bus.replies[0].value[3]) == val)
    ensures (r.Failed? && r.error.ReadBackDiffers?) <==>
      (|bus.replies| > 0 && bus.replies[0].Success? && |bus.replies[0].value| == 4
      && FromLe16(bus.replies[0].value[2], bus.replies[0].value[3]) != val)
    ensures r.Done? || (r.Failed? && r.error.ReadBackDiffers?) ==>
      (|bus.replies| > 0 && r.bus == Bus(bus.replies[1..], bus.clock, bus.log + [Transfer(ReadFrame(reg), 4)]))
    ensures r.Failed? ==> Follows(bus, r.bus) && |r.bus.replies| < |bus.replies| && r.bus.clock == bus.clock
  {
    match ReadRegister(bus, reg)
    case OffScript => OffScript
    case Failed(e, b) => Failed(WriteSpi(e), b)
    case Done(v, b) =>
      assert Follows(bus, b);
      if val != v then Failed(ReadBackDiffers, b) else Done((), b)
  }

  /** `write_verify_register`: write, read back, compare. */
  function WriteVerifyRegister(bus: Bus, reg: byte, val: bv16): (r: Run<(), CheckedWriteError>)
    ensures r.Done? || (r.Failed? && r.error.ReadBackDiffers?) ==>
      (|bus.replies| >= 2
      && r.bus == Bus(bus.replies[2..], bus.clock, bus.log + [Write(WriteFrame(reg, val)), Transfer(ReadFrame(reg), 4)]))
    ensures r.Failed? ==> Follows(bus, r.bus) && |r.bus.replies| < |bus.replies| && r.bus.clock == bus.clock
  {
    match WriteRegister(bus, reg, val)
    case OffScript => OffScript
    case Failed(e, b) => Failed(WriteSpi(e), b)
    case Done(_, b) =>
      var r := ReadBack(b, reg, val);
      if r.Done? || (r.Failed? && r.error.ReadBackDiffers?) then
        TwoSteps(bus, b, r.bus, Write(WriteFrame(reg, val)), Transfer(ReadFrame(reg), 4));
        FollowsTransitive(bus, b, r.bus);
        r
      else if r.Failed? then FollowsTransitive(bus, b, r.bus); r
      else r
  }

  /** A verified write succeeds exactly when the write is acknowledged and the register reads back the value written. */
  lemma WriteVerifyAccepts(bus: Bus, reg: byte, val: bv16)
    ensures WriteVerifyRegister(bus, reg, val).Done? <==>
      (|bus.replies| >= 2 && bus.replies[0] == Success([])
      && bus.replies[1].Success? && |bus.replies[1].value| == 4
      && FromLe16(bus.replies[1].value[2], bus.replies[1].value[3]) == val)
  {
    var w := WriteRegister(bus, reg, val);
    if w.Done? {
      assert w.bus.replies == bus.replies[1..];
      assert WriteVerifyRegister(bus, reg, val) == ReadBack(w.bus, reg, val);
    }
  }

  /** A verified write reports `ReadBackDiffers` exactly when the bus works and the register reads back another value. */
  lemma WriteVerifyRejects(bus: Bus, reg: byte, val: bv16)
    ensures var r := WriteVerifyRegister(bus, reg, val);
      (r.Failed? && r.error.ReadBackDiffers?) <==>
      (|bus.replies| >= 2 && bus.replies[0] == Success([])
      && bus.replies[1].Success? && |bus.replies[1].value| == 4
      && FromLe16(bus.replies[1].value[2], bus.replies[1].value[3]) != val)
  {
    var w := WriteRegister(bus, reg, val);
    if w.Done? {
      assert w.bus.replies == bus.replies[1..];
      assert WriteVerifyRegister(bus, reg, val) == ReadBack(w.bus, reg, val);
    }
  }

  // ---------------------------------------------------------------------
  // FIFO status and data
  // ---------------------------------------------------------------------

  datatype FifoStatus = FifoStatus(unreadWords: bv16, fifoFull: bool)

  /**
    `fifo_status`: two register-read transfers.  The FIFO-full flag is bit 7
    of the last byte of the INT_STATUS2 transfer; the unread word count is the
    FIFO_FILL_LEVEL value.
   */
  function ReadFifoStatus(bus: Bus): (r: Run<FifoStatus, SpiError>)
    ensures r.Done? <==>
      (|bus.replies| >= 2 && bus.replies[0].Success? && |bus.replies[0].value| == 4
      && bus.replies[1].Success? && |bus.replies[1].value| == 4)
    ensures r.Done? ==>
      (r.value.fifoFull == ((bus.replies[0].value[3] & 0x80) != 0)
      && r.value.unreadWords == FromLe16(bus.replies[1].value[2], bus.replies[1].value[3])
      && r.bus == Bus(bus.replies[2..], bus.clock,
                      bus.log + [Transfer(ReadFrame(INT_STATUS2), 4), Transfer(ReadFrame(FIFO_FILL_LEVEL), 4)]))
    ensures r.Failed? ==> Follows(bus, r.bus) && |r.bus.replies| < |bus.replies| && r.bus.clock == bus.clock
  {
    match Exchange(bus, Transfer(ReadFrame(INT_STATUS2), 4))
    case OffScript => OffScript
    case Failed(e, b) => Failed(e, b)
    case Done(first, b) =>
      match Exchange(b, Transfer(ReadFrame(FIFO_FILL_LEVEL), 4))
      case OffScript => OffScript
      case Failed(e, b2) => FollowsTransitive(bus, b, b2); Failed(e, b2)
      case Done(second, b2) =>
        assert b2.replies == bus.replies[2..];
        Done(FifoStatus(FromLe16(second[2], second[3]), (first[3] & 0x80) != 0), b2)
  }

  /** The FIFO-full flag is bit 15 of the INT_STATUS2 value, read through the same frame as `read_register`. */
  lemma FifoFullIsBit15(bytes: seq<byte>)
    requires |bytes| == 4
    ensures ((bytes[3] & 0x80) != 0) == ((FromLe16(bytes[2], bytes[3]) & 0x8000) != 0)
  {
  }

  /** `read_fifo`: write the FIFO_DATA address and a dummy byte, then clock in `count` bytes. */
  function ReadFifo(bus: Bus, count: nat): (r: Run<seq<byte>, SpiError>)
    ensures r.Done? <==>
      (|bus.replies| >= 2 && bus.replies[0] == Success([]) && bus.replies[1].Success? && |bus.replies[1].value| == count)
    ensures r.Done? ==>
      (r.value == bus.replies[1].value
      && r.bus == Bus(bus.replies[2..], bus.clock, bus.log + [Write([READ | FIFO_DATA, 0]), Read(count)]))
    ensures r.Failed? ==> Follows(bus, r.bus) && |r.bus.replies| < |bus.replies| && r.bus.clock == bus.clock
  {
    match Exchange(bus, Write([READ | FIFO_DATA, 0]))
    case OffScript => OffScript
    case Failed(e, b) => Failed(e, b)
    case Done(_, b) =>
      match Exchange(b, Read(count))
      case OffScript => OffScript
      case Failed(e, b2) => FollowsTransitive(bus, b, b2); Failed(e, b2)
      case Done(bytes, b2) =>
        assert b2.replies == bus.replies[2..];
        Done(bytes, b2)
  }

  // ---------------------------------------------------------------------
  // configure
  // ---------------------------------------------------------------------

  datatype ConfigurationError =
    | Spi(cause: SpiError)
    | Verification(write: CheckedWriteError)
    | InvalidChip
    | Internal(code: bv16)
    | Init(code: bv16)          // declared by the driver, never produced
    | Timeout
    | SelfTest(status: byte)
    | SelfCalibration(status: byte)

  /** The chip is a BMI323 when the low byte of its CHIP_ID register is 0x43. */
  predicate ChipAccepted(id: bv16) {
    CHIP_ID_VALID == (0x00FF & id)
  }

  /** Only the low byte of the identification counts: it is byte 2 of the read transfer. */
  lemma ChipAcceptedLowByte(lo: byte, hi: byte)
    ensures ChipAccepted(FromLe16(lo, hi)) <==> lo == 0x43
  {
  }

  /** Power-up is complete when the STATUS register shows the power-up bit and none of bits 5..7. */
  predicate PoweredUp(status: bv16) {
    (status & 0xE1) == 0x01
  }

  /** The feature engine is idle when bits 11 and 12 of FEATURE_IO1 are clear. */
  predicate FeatureIdle(status: bv16) {
    ((status >> 11) & 0x3) == 0
  }

  /** The self-test or self-calibration result is in: bit 4 of FEATURE_IO1 is set. */
  predicate FeatureComplete(res: bv16) {
    (res & 0x10) != 0
  }

  /** The result nibble of a completed self-test or self-calibration; 5 means success. */
  function FeatureResult(res: bv16): (code: byte)
    ensures code < 16
  {
    (res & 0xF) as byte
  }


  function Reading(reply: Result<seq<byte>, SpiError>): bv16
    requires reply.Success? && |reply.value| == 4
  {
    FromLe16(reply.value[2], reply.value[3])
  }

  /**
    The power-up wait: read STATUS until `PoweredUp`; a read error ends
    `configure` with `Spi`; once a clock reading is more than one whole second
    after `start`, it ends with `Timeout`.
   */
  function AwaitPowerUp(bus: Bus, start: Ticks): (r: Run<(), ConfigurationError>)
    ensures r.Done? || r.Failed? ==> Follows(bus, r.bus)
    ensures r.Done? ==>
      (|r.bus.replies| < |bus.replies| && LastReply(bus, r.bus).Success? && |LastReply(bus, r.bus).value| == 4
      && PoweredUp(Reading(LastReply(bus, r.bus))))
    ensures r.Failed? ==> r.error.Spi? || r.error.Timeout?
    ensures r.Failed? && r.error.Timeout? ==>
      (|r.bus.clock| < |bus.clock| && AsSecs(DurationSince(LastReading(bus, r.bus), start)) > 1)
    decreases |bus.replies|, 1
  {
    match ReadRegister(bus, STATUS)
    case OffScript => OffScript
    case Failed(e, b) => Failed(Spi(e), b)
    case Done(status, b) =>
      if PoweredUp(status) then Done((), b)
      else
        var r := PowerUpClock(b, start);
        if r.Done? || r.Failed? then FollowsChain(bus, b, r.bus); r else r
  }

  function PowerUpClock(bus: Bus, start: Ticks): (r: Run<(), ConfigurationError>)
    ensures r.Done? || r.Failed? ==> Follows(bus, r.bus)
    ensures r.Done? ==>
      (|r.bus.replies| < |bus.replies| && LastReply(bus, r.bus).Success? && |LastReply(bus, r.bus).value| == 4
      && PoweredUp(Reading(LastReply(bus, r.bus))))
    ensures r.Failed? ==> r.error.Spi? || r.error.Timeout?
    ensures r.Failed? && r.error.Timeout? ==>
      (|r.bus.clock| < |bus.clock| && AsSecs(DurationSince(LastReading(bus, r.bus), start)) > 1)
    decreases |bus.replies|, 2
  {
    match Now<ConfigurationError>(bus)
    case Done(now, b) =>
      if AsSecs(DurationSince(now, start)) > 1 then Failed(Timeout, b)
      else
        var r := AwaitPowerUp(b, start);
        if r.Done? || r.Failed? then FollowsChain(bus, b, r.bus); r else r
    case _ => OffScript
  }

  /** A wait without a time limit: read FEATURE_IO1 until the feature engine is idle. */
  function AwaitFeatureIdle(bus: Bus): (r: Run<(), ConfigurationError>)
    ensures r.Done? || r.Failed? ==> Follows(bus, r.bus) && r.bus.clock == bus.clock
    ensures r.Done? ==>
      (|r.bus.replies| < |bus.replies| && LastReply(bus, r.bus).Success? && |LastReply(bus, r.bus).value| == 4
      && FeatureIdle(Reading(LastReply(bus, r.bus))))
    ensures r.Failed? ==> r.error.Spi?
    decreases |bus.replies|
  {
    match ReadRegister(bus, FEATURE_IO1)
    case OffScript => OffScript
    case Failed(e, b) => Failed(Spi(e), b)
    case Done(status, b) =>
      if FeatureIdle(status) then Done((), b)
      else
        var r := AwaitFeatureIdle(b);
        if r.Done? || r.Failed? then FollowsChain(bus, b, r.bus); r else r
  }

  /**
    The result wait of a self-test or self-calibration: a result with bit 4
    set ends it, successfully when the nibble is 5 and with the procedure's
    error carrying the nibble otherwise; without a result, a clock reading
    more than one whole second after `start` ends it with `Timeout`.
   */
  function AwaitResult(bus: Bus, start: Ticks, proc: Procedure): (r: Run<(), ConfigurationError>)
    ensures r.Done? || r.Failed? ==> Follows(bus, r.bus)
    ensures r.Done? ==>
      (|r.bus.replies| < |bus.replies| && LastReply(bus, r.bus).Success? && |LastReply(bus, r.bus).value| == 4
      && FeatureComplete(Reading(LastReply(bus, r.bus))) && FeatureResult(Reading(LastReply(bus, r.bus))) == 5)
    ensures r.Failed? ==> r.error.Spi? || r.error.Timeout? || ((r.error.SelfTest? || r.error.SelfCalibration?) && r.error == proc.Fault(r.error.status))
    ensures r.Failed? && (r.error.SelfTest? || r.error.SelfCalibration?) ==>
      (|r.bus.replies| < |bus.replies| && LastReply(bus, r.bus).Success? && |LastReply(bus, r.bus).value| == 4
      && FeatureComplete(Reading(LastReply(bus, r.bus))) && r.error.status == FeatureResult(Reading(LastReply(bus, r.bus)))
      && r.error.status != 5)
    ensures r.Failed? && r.error.Timeout? ==>
      (|r.bus.clock| < |bus.clock| && AsSecs(DurationSince(LastReading(bus, r.bus), start)) > 1)
    decreases |bus.replies|, 1
  {
    match ReadRegister(bus, FEATURE_IO1)
    case OffScript => OffScript
    case Failed(e, b) => Failed(Spi(e), b)
    case Done(res, b) =>
      ReadIsLastReply(bus, FEATURE_IO1);
      if FeatureComplete(res) then
        if FeatureResult(res) == 5 then Done((), b) else Failed(proc.Fault(FeatureResult(res)), b)
      else
        var r := ResultClock(b, start, proc);
        if r.Done? || r.Failed? then FollowsChain(bus, b, r.bus); r else r
  }

  function ResultClock(bus: Bus, start: Ticks, proc: Procedure): (r: Run<(), ConfigurationError>)
    ensures r.Done? || r.Failed? ==> Follows(bus, r.bus)
    ensures r.Done? ==>
      (|r.bus.replies| < |bus.replies| && LastReply(bus, r.bus).Success? && |LastReply(bus, r.bus).value| == 4
      && FeatureComplete(Reading(LastReply(bus, r.bus))) && FeatureResult(Reading(LastReply(bus, r.bus))) == 5)
    ensures r.Failed? ==> r.error.Spi? || r.error.Timeout? || ((r.error.SelfTest? || r.error.SelfCalibration?) && r.error == proc.Fault(r.error.status))
    ensures r.Failed? && (r.error.SelfTest? || r.error.SelfCalibration?) ==>
      (|r.bus.replies| < |bus.replies| && LastReply(bus, r.bus).Success? && |LastReply(bus, r.bus).value| == 4
      && FeatureComplete(Reading(LastReply(bus, r.bus))) && r.error.status == FeatureResult(Reading(LastReply(bus, r.bus)))
      && r.error.status != 5)
    ensures r.Failed? && r.error.Timeout? ==>
      (|r.bus.clock| < |bus.clock| && AsSecs(DurationSince(LastReading(bus, r.bus), start)) > 1)
    decreases |bus.replies|, 2
  {
    match Now<ConfigurationError>(bus)
    case Done(now, b) =>
      if AsSecs(DurationSince(now, start)) > 1 then Failed(Timeout, b)
      else
        var r := AwaitResult(b, start, proc);
        if r.Done? || r.Failed? then FollowsChain(bus, b, r.bus); r else r
    case _ => OffScript
  }

  // ---------------------------------------------------------------------
  // The configuration sequence
  // ---------------------------------------------------------------------

  /** Accelerometer and gyroscope settings for the self-test: 200 Hz, smallest range, high-performance mode. */
  const SelfTestAccConf: bv16 := 0x9 | (0x0 << 4) | (0x0 << 7) | (0x0 << 8) | (0x7 << 12)
  const SelfTestGyrConf: bv16 := 0x9 | (0x0 << 4) | (0x0 << 7) | (0x0 << 8) | (0x7 << 12)
  const FEATURE_ENGINE_EN: bv16 := 1

  /** The verified writes `self_test_and_calibration` starts with. */
  const SelfTestWrites: seq<(byte, bv16)> :=
    [(ACC_CONF, SelfTestAccConf), (GYR_CONF, SelfTestGyrConf), (FEATURE_CTRL, FEATURE_ENGINE_EN)]

  /** FIFO watermark of four samples; FIFO in streaming mode with time, accelerometer and gyroscope words. */
  const FifoWatermarkLevel: bv16 := 4 * (WordsPerSample as bv16)
  const FifoConf: bv16 := 0 | (1 << 8) | (1 << 9) | (1 << 10) | (0 << 11)
  /** Both interrupt pins active high, push-pull, enabled. */
  const IoIntCtrl: bv16 := 1 | (1 << 1) | (1 << 2) | (1 << 8) | (1 << 9) | (1 << 10)
  /** FIFO watermark interrupt to INT1, FIFO full interrupt to INT2. */
  const IntMap2: bv16 := (0x1 << 12) | (0x2 << 14)
  /** Operating rates: 800 Hz, the ranges above, high-performance mode. */
  const AccConf: bv16 := 0xB | ACC_RANGE | (0x0 << 7) | (0x0 << 8) | (0x7 << 12)
  const GyrConf: bv16 := 0xB | GYR_RANGE | (0x0 << 7) | (0x0 << 8) | (0x7 << 12)

  /** The verified writes that follow the calibration, in order. */
  const OperatingWrites: seq<(byte, bv16)> :=
    [(FIFO_WATERMARK, FifoWatermarkLevel), (FIFO_CONF, FifoConf), (IO_INT_CTRL, IoIntCtrl),
     (INT_MAP2, IntMap2), (ACC_CONF, AccConf), (GYR_CONF, GyrConf)]

  /** The register values the fields above assemble to. */
  lemma RegisterValues()
    ensures SelfTestAccConf == 0x7009 && SelfTestGyrConf == 0x7009
    ensures FifoWatermarkLevel == 28 && FifoConf == 0x0700 && IoIntCtrl == 0x0707
    ensures IntMap2 == 0x9000 && AccConf == 0x702B && GyrConf == 0x704B
  {
  }

  /** A run of verified writes; the first failure ends it as `Verification`. */
  function VerifyAll(bus: Bus, writes: seq<(byte, bv16)>): (r: Run<(), ConfigurationError>)
    ensures r.Done? || r.Failed? ==> Follows(bus, r.bus) && r.bus.clock == bus.clock
    ensures r.Failed? ==> r.error.Verification?
    decreases |writes|
  {
    if |writes| == 0 then Done((), bus)
    else
      match WriteVerifyRegister(bus, writes[0].0, writes[0].1)
      case OffScript => OffScript
      case Failed(e, b) => Failed(Verification(e), b)
      case Done(_, b) =>
        assert Follows(bus, b);
        var r := VerifyAll(b, writes[1..]);
        if r.Done? || r.Failed? then FollowsTransitive(bus, b, r.bus); r else r
  }

  /** A run of plain writes; the first bus error ends it as `Spi`. */
  function PlainWrites(bus: Bus, writes: seq<(byte, bv16)>): (r: Run<(), ConfigurationError>)
    ensures r.Done? || r.Failed? ==> Follows(bus, r.bus) && r.bus.clock == bus.clock
    ensures r.Failed? ==> r.error.Spi?
    decreases |writes|
  {
    if |writes| == 0 then Done((), bus)
    else
      match WriteRegister(bus, writes[0].0, writes[0].1)
      case OffScript => OffScript
      case Failed(e, b) => Failed(Spi(e), b)
      case Done(_, b) =>
        assert Follows(bus, b);
        var r := PlainWrites(b, writes[1..]);
        if r.Done? || r.Failed? then FollowsTransitive(bus, b, r.bus); r else r
  }

  /** Reads the ERROR register: any value other than zero ends `configure` with `Internal`. */
  function CheckError(bus: Bus): (r: Run<(), ConfigurationError>)
    ensures r.Done? || r.Failed? ==> Follows(bus, r.bus) && |r.bus.replies| < |bus.replies| && r.bus.clock == bus.clock
    ensures r.Done? <==>
      (|bus.replies| > 0 && bus.replies[0].Success? && |bus.replies[0].value| == 4 && Reading(bus.replies[0]) == 0)
    ensures r.Done? ==> r.bus == Bus(bus.replies[1..], bus.clock, bus.log + [Transfer(ReadFrame(ERROR), 4)])
    ensures r.Failed? ==> r.error.Spi? || r.error.Internal?
    ensures r.Failed? && r.error.Internal? ==>
      (|bus.replies| > 0 && bus.replies[0].Success? && |bus.replies[0].value| == 4
      && r.error.code == Reading(bus.replies[0]) && r.error.code != 0)
  {
    match ReadRegister(bus, ERROR)
    case OffScript => OffScript
    case Failed(e, b) => Failed(Spi(e), b)
    case Done(code, b) => if code != 0 then Failed(Internal(code), b) else Done((), b)
  }

  /** `configure` has succeeded only after an ERROR read of zero, the last reply it consumed. */
  predicate EndsClean(before: Bus, after: Bus) {
    |after.replies| < |before.replies| && LastReply(before, after).Success? && |LastReply(before, after).value| == 4
    && Reading(LastReply(before, after)) == 0
    && |after.log| > 0 && after.log[|after.log| - 1] == Transfer(ReadFrame(ERROR), 4)
  }

  lemma EndsCleanFollows(a: Bus, mid: Bus, c: Bus)
    requires Follows(a, mid) && Follows(mid, c) && EndsClean(mid, c)
    ensures EndsClean(a, c)
  {
    LastReplyFollows(a, mid, c);
  }

  /** The errors a stage after the identification can end with. */
  predicate LaterError(e: ConfigurationError) {
    !e.InvalidChip? && !e.Init?
  }

  /** A feature-engine procedure: wait until idle, send its commands, wait for the result. */
  datatype Procedure = SelfTestRun | CalibrationRun {
    function Fault(code: byte): (e: ConfigurationError)
      ensures e.SelfTest? || e.SelfCalibration?
    {
      match this
      case SelfTestRun => SelfTest(code)
      case CalibrationRun => SelfCalibration(code)
    }

    /** The CMD writes that start it; the calibration command is sent twice. */
    function Commands(): (ws: seq<(byte, bv16)>)
      ensures |ws| > 0
    {
      match this
      case SelfTestRun => [(CMD, 0x100)]
      case CalibrationRun => [(CMD, 0x101), (CMD, 0x101)]
    }
  }

  function RunProcedure(bus: Bus, proc: Procedure): (r: Run<(), ConfigurationError>)
    ensures r.Done? || r.Failed? ==> Follows(bus, r.bus)
    ensures r.Failed? ==> r.error.Spi? || r.error.Timeout? || ((r.error.SelfTest? || r.error.SelfCalibration?) && r.error == proc.Fault(r.error.status))
  {
    match AwaitFeatureIdle(bus)
    case OffScript => OffScript
    case Failed(e, b) => Failed(e, b)
    case Done(_, b) =>
      var r := StartProcedure(b, proc);
      if r.Done? || r.Failed? then FollowsTransitive(bus, b, r.bus); r else r
  }

  function StartProcedure(bus: Bus, proc: Procedure): (r: Run<(), ConfigurationError>)
    ensures r.Done? || r.Failed? ==> Follows(bus, r.bus)
    ensures r.Failed? ==> r.error.Spi? || r.error.Timeout? || ((r.error.SelfTest? || r.error.SelfCalibration?) && r.error == proc.Fault(r.error.status))
  {
    match PlainWrites(bus, proc.Commands())
    case OffScript => OffScript
    case Failed(e, b) => Failed(e, b)
    case Done(_, b) =>
      match Now<ConfigurationError>(b)
      case Done(start, b2) =>
        assert Follows(b, b2);
        var r := AwaitResult(b2, start, proc);
        if r.Done? || r.Failed? then FollowsTransitive(bus, b, b2); FollowsTransitive(bus, b2, r.bus); r else r
      case _ => OffScript
  }

  /** `self_test_and_calibration`: self-test settings, self-test, self-calibration, feature engine off. */
  function SelfTestAndCalibration(bus: Bus): (r: Run<(), ConfigurationError>)
    ensures r.Done? || r.Failed? ==> Follows(bus, r.bus)
    ensures r.Failed? ==> r.error.Spi? || r.error.Verification? || r.error.Timeout? || r.error.SelfTest? || r.error.SelfCalibration?
  {
    match VerifyAll(bus, SelfTestWrites)
    case OffScript => OffScript
    case Failed(e, b) => Failed(e, b)
    case Done(_, b) =>
      var r := Calibrate(b);
      if r.Done? || r.Failed? then FollowsTransitive(bus, b, r.bus); r else r
  }

  function Calibrate(bus: Bus): (r: Run<(), ConfigurationError>)
    ensures r.Done? || r.Failed? ==> Follows(bus, r.bus)
    ensures r.Failed? ==> r.error.Spi? || r.error.Verification? || r.error.Timeout? || r.error.SelfTest? || r.error.SelfCalibration?
  {
    match RunProcedure(bus, SelfTestRun)
    case OffScript => OffScript
    case Failed(e, b) => Failed(e, b)
    case Done(_, b) =>
      var r := CalibrateAfterSelfTest(b);
      if r.Done? || r.Failed? then FollowsTransitive(bus, b, r.bus); r else r
  }

  /** The self-calibration, then the feature engine switched off again. */
  function CalibrateAfterSelfTest(bus: Bus): (r: Run<(), ConfigurationError>)
    ensures r.Done? || r.Failed? ==> Follows(bus, r.bus)
    ensures r.Failed? ==> r.error.Spi? || r.error.Verification? || r.error.Timeout? || r.error.SelfCalibration?
  {
    match RunProcedure(bus, CalibrationRun)
    case OffScript => OffScript
    case Failed(e, b) => Failed(e, b)
    case Done(_, b) =>
      var r := VerifyAll(b, [(FEATURE_CTRL, 0)]);
      if r.Done? || r.Failed? then FollowsTransitive(bus, b, r.bus); r else r
  }

  /**
    `configure`: a dummy read switches the chip to SPI, then the chip
    identification, reset, power-up wait, error check, self-test and
    calibration, operating registers and a final error check.
   */
  function Configure(bus: Bus): (r: Run<(), ConfigurationError>)
    ensures r.Done? || r.Failed? ==> Follows(bus, r.bus)
    ensures r.Done? ==> EndsClean(bus, r.bus)
    ensures r.Failed? ==> !r.error.Init?
    ensures (r.Failed? && r.error.InvalidChip?) <==>
      (|bus.replies| >= 2 && bus.replies[0].Success? && |bus.replies[0].value| == 4
      && bus.replies[1].Success? && |bus.replies[1].value| == 4 && bus.replies[1].value[2] != 0x43)
  {
    match ReadRegister(bus, CHIP_ID)
    case OffScript => OffScript
    case Failed(e, b) => Failed(Spi(e), b)
    case Done(_, b) =>
      var r := Identify(b);
      if r.Done? || r.Failed? then
        FollowsTransitive(bus, b, r.bus);
        if r.Done? then EndsCleanFollows(bus, b, r.bus); r else r
      else r
  }

  function Identify(bus: Bus): (r: Run<(), ConfigurationError>)
    ensures r.Done? || r.Failed? ==> Follows(bus, r.bus)
    ensures r.Done? ==> EndsClean(bus, r.bus)
    ensures r.Failed? ==> !r.error.Init?
    ensures (r.Failed? && r.error.InvalidChip?) <==>
      (|bus.replies| >= 1 && bus.replies[0].Success? && |bus.replies[0].value| == 4 && bus.replies[0].value[2] != 0x43)
  {
    match ReadRegister(bus, CHIP_ID)
    case OffScript => OffScript
    case Failed(e, b) => Failed(Spi(e), b)
    case Done(id, b) =>
      ChipAcceptedLowByte(bus.replies[0].value[2], bus.replies[0].value[3]);
      if !ChipAccepted(id) then Failed(InvalidChip, b)
      else
        var r := Reset(b);
        if r.Done? || r.Failed? then
          FollowsTransitive(bus, b, r.bus);
          if r.Done? then EndsCleanFollows(bus, b, r.bus); r else r
        else r
  }

  /** The soft reset and the power-up wait. */
  function Reset(bus: Bus): (r: Run<(), ConfigurationError>)
    ensures r.Done? || r.Failed? ==> Follows(bus, r.bus)
    ensures r.Done? ==> EndsClean(bus, r.bus)
    ensures r.Failed? ==> LaterError(r.error)
  {
    match WriteRegister(bus, CMD, 0xDEAF)
    case OffScript => OffScript
    case Failed(e, b) => Failed(Spi(e), b)
    case Done(_, b) =>
      match Now<ConfigurationError>(b)
      case Done(start, b2) =>
        assert Follows(bus, b2);
        var r := PowerUp(b2, start);
        if r.Done? || r.Failed? then
          FollowsTransitive(bus, b2, r.bus);
          if r.Done? then EndsCleanFollows(bus, b2, r.bus); r else r
        else r
      case _ => OffScript
  }

  function PowerUp(bus: Bus, start: Ticks): (r: Run<(), ConfigurationError>)
    ensures r.Done? || r.Failed? ==> Follows(bus, r.bus)
    ensures r.Done? ==> EndsClean(bus, r.bus)
    ensures r.Failed? ==> LaterError(r.error)
  {
    match AwaitPowerUp(bus, start)
    case OffScript => OffScript
    case Failed(e, b) => Failed(e, b)
    case Done(_, b) =>
      var r := AfterPowerUp(b);
      if r.Done? || r.Failed? then
        FollowsTransitive(bus, b, r.bus);
        if r.Done? then EndsCleanFollows(bus, b, r.bus); r else r
      else r
  }

  /** Another dummy read, the first error check, then the self-test and calibration. */
  function AfterPowerUp(bus: Bus): (r: Run<(), ConfigurationError>)
    ensures r.Done? || r.Failed? ==> Follows(bus, r.bus)
    ensures r.Done? ==> EndsClean(bus, r.bus)
    ensures r.Failed? ==> LaterError(r.error)
  {
    match ReadRegister(bus, CHIP_ID)
    case OffScript => OffScript
    case Failed(e, b) => Failed(Spi(e), b)
    case Done(_, b) =>
      match CheckError(b)
      case OffScript => OffScript
      case Failed(e, b2) => FollowsTransitive(bus, b, b2); Failed(e, b2)
      case Done(_, b2) =>
        var r := Operate(b2);
        if r.Done? || r.Failed? then
          FollowsTransitive(bus, b, b2); FollowsTransitive(bus, b2, r.bus);
          if r.Done? then EndsCleanFollows(bus, b2, r.bus); r else r
        else r
  }

  /** The self-test and calibration, then the operating registers and the final error check. */
  function Operate(bus: Bus): (r: Run<(), ConfigurationError>)
    ensures r.Done? || r.Failed? ==> Follows(bus, r.bus)
    ensures r.Done? ==> EndsClean(bus, r.bus)
    ensures r.Failed? ==> LaterError(r.error)
  {
    match SelfTestAndCalibration(bus)
    case OffScript => OffScript
    case Failed(e, b) => Failed(e, b)
    case Done(_, b) =>
      var r := Finish(b);
      if r.Done? || r.Failed? then
        FollowsTransitive(bus, b, r.bus);
        if r.Done? then EndsCleanFollows(bus, b, r.bus); r else r
      else r
  }

  function Finish(bus: Bus): (r: Run<(), ConfigurationError>)
    ensures r.Done? || r.Failed? ==> Follows(bus, r.bus)
    ensures r.Done? ==> EndsClean(bus, r.bus)
    ensures r.Failed? ==> r.error.Spi? || r.error.Verification? || r.error.Internal?
  {
    match VerifyAll(bus, OperatingWrites)
    case OffScript => OffScript
    case Failed(e, b) => Failed(e, b)
    case Done(_, b) =>
      var r := CheckError(b);
      if r.Done? || r.Failed? then FollowsTransitive(bus, b, r.bus); r else r
  }

  // ---------------------------------------------------------------------
  // The register writes of every successful run
  // ---------------------------------------------------------------------

  /** A stage that ends successfully has added exactly `writes` to the register writes on the wire. */
  predicate Wrote(r: Run<(), ConfigurationError>, bus: Bus, writes: seq<(byte, bv16)>) {
    r.Done? ==> WordWrites(r.bus.log) == WordWrites(bus.log) + writes
  }

  /** A stage that writes `w1` and then a stage that writes `w2` write `w1 + w2`. */
  lemma WroteChain(bus: Bus, mid: Bus, r: Run<(), ConfigurationError>, w1: seq<(byte, bv16)>, w2: seq<(byte, bv16)>)
    requires WordWrites(mid.log) == WordWrites(bus.log) + w1 && Wrote(r, mid, w2)
    ensures Wrote(r, bus, w1 + w2)
  {
    assert WordWrites(bus.log) + w1 + w2 == WordWrites(bus.log) + (w1 + w2);
  }

  lemma WritesAssociate(a: seq<(byte, bv16)>, b: seq<(byte, bv16)>, c: seq<(byte, bv16)>)
    ensures a + b + c == a + (b + c)
  {
  }

  /** The power-up wait only reads, however many polls it takes. */
  lemma {:induction false} AwaitPowerUpLogs(bus: Bus, start: Ticks)
    ensures Wrote(AwaitPowerUp(bus, start), bus, [])
    decreases |bus.replies|, 1
  {
    match ReadRegister(bus, STATUS)
    case Done(status, b) =>
      ReadLogged(bus.log, STATUS);
      if !PoweredUp(status) {
        PowerUpClockLogs(b, start);
      }
    case _ =>
  }

  lemma {:induction false} PowerUpClockLogs(bus: Bus, start: Ticks)
    ensures Wrote(PowerUpClock(bus, start), bus, [])
    decreases |bus.replies|, 2
  {
    match Now<ConfigurationError>(bus)
    case Done(now, b) =>
      if AsSecs(DurationSince(now, start)) <= 1 {
        AwaitPowerUpLogs(b, start);
      }
    case _ =>
  }

  /** The wait for an idle feature engine only reads, however many polls it takes. */
  lemma {:induction false} AwaitFeatureIdleLogs(bus: Bus)
    ensures Wrote(AwaitFeatureIdle(bus), bus, [])
    decreases |bus.replies|
  {
    match ReadRegister(bus, FEATURE_IO1)
    case Done(status, b) =>
      ReadLogged(bus.log, FEATURE_IO1);
      if !FeatureIdle(status) {
        AwaitFeatureIdleLogs(b);
      }
    case _ =>
  }

  /** The result wait only reads, however many polls it takes. */
  lemma {:induction false} AwaitResultLogs(bus: Bus, start: Ticks, proc: Procedure)
    ensures Wrote(AwaitResult(bus, start, proc), bus, [])
    decreases |bus.replies|, 1
  {
    match ReadRegister(bus, FEATURE_IO1)
    case Done(res, b) =>
      ReadLogged(bus.log, FEATURE_IO1);
      if !FeatureComplete(res) {
        ResultClockLogs(b, start, proc);
      }
    case _ =>
  }

  lemma {:induction false} ResultClockLogs(bus: Bus, start: Ticks, proc: Procedure)
    ensures Wrote(ResultClock(bus, start, proc), bus, [])
    decreases |bus.replies|, 2
  {
    match Now<ConfigurationError>(bus)
    case Done(now, b) =>
      if AsSecs(DurationSince(now, start)) <= 1 {
        AwaitResultLogs(b, start, proc);
      }
    case _ =>
  }

  /** A run of verified writes that succeeds puts exactly its writes on the wire, whatever the read-backs' dummy bytes. */
  lemma {:induction false} VerifyAllLogs(bus: Bus, writes: seq<(byte, bv16)>)
    requires Addressable(writes)
    ensures Wrote(VerifyAll(bus, writes), bus, writes)
    decreases |writes|
  {
    if |writes| > 0 {
      var (reg, val) := writes[0];
      var w := WriteVerifyRegister(bus, reg, val);
      if w.Done? {
        var wf := Write(WriteFrame(reg, val));
        WriteLogged(bus.log, reg, val);
        ReadLogged(bus.log + [wf], reg);
        assert bus.log + [wf, Transfer(ReadFrame(reg), 4)] == bus.log + [wf] + [Transfer(ReadFrame(reg), 4)];
        assert Addressable(writes[1..]);
        VerifyAllLogs(w.bus, writes[1..]);
        WroteChain(bus, w.bus, VerifyAll(w.bus, writes[1..]), [writes[0]], writes[1..]);
        assert [writes[0]] + writes[1..] == writes;
      }
    }
  }

  /** A run of plain writes that succeeds puts exactly its writes on the wire. */
  lemma {:induction false} PlainWritesLogs(bus: Bus, writes: seq<(byte, bv16)>)
    requires Addressable(writes)
    ensures Wrote(PlainWrites(bus, writes), bus, writes)
    decreases |writes|
  {
    if |writes| > 0 {
      var (reg, val) := writes[0];
      var w := WriteRegister(bus, reg, val);
      if w.Done? {
        WriteLogged(bus.log, reg, val);
        assert Addressable(writes[1..]);
        PlainWritesLogs(w.bus, writes[1..]);
        WroteChain(bus, w.bus, PlainWrites(w.bus, writes[1..]), [writes[0]], writes[1..]);
        assert [writes[0]] + writes[1..] == writes;
      }
    }
  }

  lemma StartProcedureLogs(bus: Bus, proc: Procedure)
    ensures Wrote(StartProcedure(bus, proc), bus, proc.Commands())
  {
    var cmds := proc.Commands();
    PlainWritesLogs(bus, cmds);
    var p := PlainWrites(bus, cmds);
    if p.Done? && |p.bus.clock| > 0 {
      var b2 := p.bus.(clock := p.bus.clock[1..]);
      AwaitResultLogs(b2, p.bus.clock[0], proc);
      WroteChain(bus, b2, AwaitResult(b2, p.bus.clock[0], proc), cmds, []);
      assert cmds + [] == cmds;
    }
  }

  /** A procedure that succeeds writes only its commands. */
  lemma RunProcedureLogs(bus: Bus, proc: Procedure)
    ensures Wrote(RunProcedure(bus, proc), bus, proc.Commands())
  {
    AwaitFeatureIdleLogs(bus);
    var a := AwaitFeatureIdle(bus);
    if a.Done? {
      StartProcedureLogs(a.bus, proc);
      WroteChain(bus, a.bus, StartProcedure(a.bus, proc), [], proc.Commands());
      assert [] + proc.Commands() == proc.Commands();
    }
  }

  lemma CalibrateAfterSelfTestLogs(bus: Bus)
    ensures Wrote(CalibrateAfterSelfTest(bus), bus, CalibrationRun.Commands() + [(FEATURE_CTRL, 0)])
  {
    RunProcedureLogs(bus, CalibrationRun);
    var a := RunProcedure(bus, CalibrationRun);
    if a.Done? {
      VerifyAllLogs(a.bus, [(FEATURE_CTRL, 0)]);
      WroteChain(bus, a.bus, VerifyAll(a.bus, [(FEATURE_CTRL, 0)]), CalibrationRun.Commands(), [(FEATURE_CTRL, 0)]);
    }
  }

  lemma CalibrateLogs(bus: Bus)
    ensures Wrote(Calibrate(bus), bus, CalibrationCommands())
  {
    RunProcedureLogs(bus, SelfTestRun);
    var a := RunProcedure(bus, SelfTestRun);
    if a.Done? {
      CalibrateAfterSelfTestLogs(a.bus);
      WroteChain(bus, a.bus, CalibrateAfterSelfTest(a.bus), SelfTestRun.Commands(), CalibrationRun.Commands() + [(FEATURE_CTRL, 0)]);
      WritesAssociate(SelfTestRun.Commands(), CalibrationRun.Commands(), [(FEATURE_CTRL, 0)]);
    }
  }

  lemma SelfTestAndCalibrationLogs(bus: Bus)
    ensures Wrote(SelfTestAndCalibration(bus), bus, SelfTestWrites + CalibrationCommands())
  {
    VerifyAllLogs(bus, SelfTestWrites);
    var a := VerifyAll(bus, SelfTestWrites);
    if a.Done? {
      CalibrateLogs(a.bus);
      WroteChain(bus, a.bus, Calibrate(a.bus), SelfTestWrites, CalibrationCommands());
    }
  }

  lemma FinishLogs(bus: Bus)
    ensures Wrote(Finish(bus), bus, OperatingWrites)
  {
    OperatingAddressable();
    VerifyAllLogs(bus, OperatingWrites);
    var a := VerifyAll(bus, OperatingWrites);
    if a.Done? {
      var c := CheckError(a.bus);
      if c.Done? {
        ReadLogged(a.bus.log, ERROR);
        WroteChain(bus, a.bus, c, OperatingWrites, []);
        assert OperatingWrites + [] == OperatingWrites;
      }
    }
  }

  lemma OperateLogs(bus: Bus)
    ensures Wrote(Operate(bus), bus, OperateWrites())
  {
    SelfTestAndCalibrationLogs(bus);
    var a := SelfTestAndCalibration(bus);
    if a.Done? {
      FinishLogs(a.bus);
      WroteChain(bus, a.bus, Finish(a.bus), SelfTestWrites + CalibrationCommands(), OperatingWrites);
    }
  }

  lemma AfterPowerUpLogs(bus: Bus)
    ensures Wrote(AfterPowerUp(bus), bus, OperateWrites())
  {
    var a := ReadRegister(bus, CHIP_ID);
    if a.Done? {
      ReadLogged(bus.log, CHIP_ID);
      var c := CheckError(a.bus);
      if c.Done? {
        ReadLogged(a.bus.log, ERROR);
        OperateLogs(c.bus);
        WroteChain(bus, c.bus, Operate(c.bus), [], OperateWrites());
        assert [] + OperateWrites() == OperateWrites();
      }
    }
  }

  lemma PowerUpLogs(bus: Bus, start: Ticks)
    ensures Wrote(PowerUp(bus, start), bus, OperateWrites())
  {
    AwaitPowerUpLogs(bus, start);
    var a := AwaitPowerUp(bus, start);
    if a.Done? {
      AfterPowerUpLogs(a.bus);
      WroteChain(bus, a.bus, AfterPowerUp(a.bus), [], OperateWrites());
      assert [] + OperateWrites() == OperateWrites();
    }
  }

  lemma ResetLogs(bus: Bus)
    ensures Wrote(Reset(bus), bus, ConfiguredWrites())
  {
    var a := WriteRegister(bus, CMD, 0xDEAF);
    if a.Done? && |a.bus.clock| > 0 {
      WriteLogged(bus.log, CMD, 0xDEAF);
      var b2 := a.bus.(clock := a.bus.clock[1..]);
      PowerUpLogs(b2, a.bus.clock[0]);
      WroteChain(bus, b2, PowerUp(b2, a.bus.clock[0]), [(CMD, 0xDEAF)], OperateWrites());
    }
  }

  lemma IdentifyLogs(bus: Bus)
    ensures Wrote(Identify(bus), bus, ConfiguredWrites())
  {
    var a := ReadRegister(bus, CHIP_ID);
    if a.Done? && ChipAccepted(a.value) {
      ReadLogged(bus.log, CHIP_ID);
      ResetLogs(a.bus);
      WroteChain(bus, a.bus, Reset(a.bus), [], ConfiguredWrites());
      assert [] + ConfiguredWrites() == ConfiguredWrites();
    }
  }

  /**
    Every run of `configure` that succeeds, however many polls its waits take
    and whatever the dummy bytes of its reads, writes exactly the soft reset,
    the self-test settings, the procedure commands, the feature engine off and
    the operating registers, in that order, and nothing else.
   */
  lemma ConfigureLogs(bus: Bus)
    ensures Configure(bus).Done? ==> WordWrites(Configure(bus).bus.log) == WordWrites(bus.log) + ConfiguredWrites()
  {
    var a := ReadRegister(bus, CHIP_ID);
    if a.Done? {
      ReadLogged(bus.log, CHIP_ID);
      IdentifyLogs(a.bus);
      WroteChain(bus, a.bus, Identify(a.bus), [], ConfiguredWrites());
      assert [] + ConfiguredWrites() == ConfiguredWrites();
    }
  }

  // ---------------------------------------------------------------------
  // An honest chip
  // ---------------------------------------------------------------------

  type Reply = Result<seq<byte>, SpiError>

  /** A write acknowledged by the bus. */
  function Ack(): Reply {
    Success([])
  }

  /** A register read whose value is `v`. */
  function Word(v: bv16): (reply: Reply)
    ensures reply.Success? && |reply.value| == 4
  {
    Success([0, 0] + ToLe16(v))
  }

  lemma WordReading(v: bv16)
    ensures Reading(Word(v)) == v
  {
    Le16RoundTrip(v);
  }

  function Acks(n: nat): (rs: seq<Reply>)
    ensures |rs| == n
    ensures forall i :: 0 <= i < n ==> rs[i] == Ack()
  {
    if n == 0 then [] else [Ack()] + Acks(n - 1)
  }

  /** The replies of a chip that acknowledges each verified write and reads back the value written. */
  function VerifyReplies(writes: seq<(byte, bv16)>): seq<Reply> {
    if |writes| == 0 then [] else [Ack(), Word(writes[0].1)] + VerifyReplies(writes[1..])
  }

  /** Registers a write frame addresses unchanged: the read bit is clear. */
  predicate Addressable(writes: seq<(byte, bv16)>) {
    forall i :: 0 <= i < |writes| ==> writes[i].0 < 0x80
  }

  /** `r` ended successfully with `rest` left of the replies, `readings` clock readings taken, and `writes` logged. */
  predicate Completes(r: Run<(), ConfigurationError>, bus: Bus, rest: seq<Reply>, readings: nat, writes: seq<(byte, bv16)>) {
    r.Done? && r.bus.replies == rest && readings <= |bus.clock| && r.bus.clock == bus.clock[readings..]
    && WordWrites(r.bus.log) == WordWrites(bus.log) + writes
  }

  lemma WriteLogged(log: seq<Op>, reg: byte, val: bv16)
    requires reg < 0x80
    ensures WordWrites(log + [Write(WriteFrame(reg, val))]) == WordWrites(log) + [(reg, val)]
  {
    assert WRITE & reg == reg;
    WordWritesPush(log, reg, val);
  }

  lemma ReadLogged(log: seq<Op>, reg: byte)
    ensures WordWrites(log + [Transfer(ReadFrame(reg), 4)]) == WordWrites(log)
  {
    WordWritesSkip(log, Transfer(ReadFrame(reg), 4));
  }

  lemma AppendOne<T>(prefix: seq<T>, xs: seq<T>)
    requires |xs| > 0
    ensures prefix + [xs[0]] + xs[1..] == prefix + xs
  {
    assert xs == [xs[0]] + xs[1..];
  }

  lemma VerifyAllStep(bus: Bus, writes: seq<(byte, bv16)>, rest: seq<Reply>) returns (next: Bus)
    requires |writes| > 0 && writes[0].0 < 0x80 && bus.replies == VerifyReplies(writes) + rest
    ensures next.replies == VerifyReplies(writes[1..]) + rest && next.clock == bus.clock
    ensures WordWrites(next.log) == WordWrites(bus.log) + [writes[0]]
    ensures VerifyAll(bus, writes) == VerifyAll(next, writes[1..])
  {
    var (reg, val) := writes[0];
    assert bus.replies == [Ack(), Word(val)] + (VerifyReplies(writes[1..]) + rest);
    WordReading(val);
    WriteVerifyAccepts(bus, reg, val);
    var w := Write(WriteFrame(reg, val));
    var t := Transfer(ReadFrame(reg), 4);
    next := Bus(bus.replies[2..], bus.clock, bus.log + [w, t]);
    assert WriteVerifyRegister(bus, reg, val) == Done((), next);
    WriteLogged(bus.log, reg, val);
    ReadLogged(bus.log + [w], reg);
    assert bus.log + [w, t] == bus.log + [w] + [t];
  }

  lemma {:induction false} VerifyAllHonest(bus: Bus, writes: seq<(byte, bv16)>, rest: seq<Reply>)
    requires Addressable(writes) && bus.replies == VerifyReplies(writes) + rest
    ensures Completes(VerifyAll(bus, writes), bus, rest, 0, writes)
    decreases |writes|
  {
    if |writes| == 0 {
      assert bus.replies == rest;
    } else {
      var next := VerifyAllStep(bus, writes, rest);
      assert Addressable(writes[1..]);
      VerifyAllHonest(next, writes[1..], rest);
      var r := VerifyAll(next, writes[1..]);
      assert VerifyAll(bus, writes) == r;
      AppendOne(WordWrites(bus.log), writes);
    }
  }

  lemma PlainWritesStep(bus: Bus, writes: seq<(byte, bv16)>, rest: seq<Reply>) returns (next: Bus)
    requires |writes| > 0 && writes[0].0 < 0x80 && bus.replies == Acks(|writes|) + rest
    ensures next.replies == Acks(|writes| - 1) + rest && next.clock == bus.clock
    ensures WordWrites(next.log) == WordWrites(bus.log) + [writes[0]]
    ensures PlainWrites(bus, writes) == PlainWrites(next, writes[1..])
  {
    var (reg, val) := writes[0];
    assert bus.replies == [Ack()] + (Acks(|writes| - 1) + rest);
    next := Bus(bus.replies[1..], bus.clock, bus.log + [Write(WriteFrame(reg, val))]);
    assert WriteRegister(bus, reg, val) == Done((), next);
    WriteLogged(bus.log, reg, val);
  }

  lemma {:induction false} PlainWritesHonest(bus: Bus, writes: seq<(byte, bv16)>, rest: seq<Reply>)
    requires Addressable(writes) && bus.replies == Acks(|writes|) + rest
    ensures Completes(PlainWrites(bus, writes), bus, rest, 0, writes)
    decreases |writes|
  {
    if |writes| == 0 {
      assert bus.replies == rest;
    } else {
      var next := PlainWritesStep(bus, writes, rest);
      assert Addressable(writes[1..]);
      PlainWritesHonest(next, writes[1..], rest);
      var r := PlainWrites(next, writes[1..]);
      assert PlainWrites(bus, writes) == r;
      AppendOne(WordWrites(bus.log), writes);
    }
  }

  /** One register read of `v`: the bus after it. */
  lemma ReadStep(bus: Bus, reg: byte, v: bv16, rest: seq<Reply>) returns (next: Bus)
    requires bus.replies == [Word(v)] + rest
    ensures ReadRegister(bus, reg) == Done(v, next)
    ensures next == Bus(rest, bus.clock, bus.log + [Transfer(ReadFrame(reg), 4)])
    ensures WordWrites(next.log) == WordWrites(bus.log)
  {
    WordReading(v);
    assert bus.replies[1..] == rest;
    next := Bus(rest, bus.clock, bus.log + [Transfer(ReadFrame(reg), 4)]);
    ReadLogged(bus.log, reg);
  }

  /** The idle reading, the commands acknowledged, and a result of 5 with the completion bit. */
  function ProcedureReplies(proc: Procedure): seq<Reply> {
    [Word(0)] + Acks(|proc.Commands()|) + [Word(0x15)]
  }

  lemma AwaitFeatureIdleHonest(bus: Bus, rest: seq<Reply>) returns (next: Bus)
    requires bus.replies == [Word(0)] + rest
    ensures AwaitFeatureIdle(bus) == Done((), next)
    ensures next.replies == rest && next.clock == bus.clock && WordWrites(next.log) == WordWrites(bus.log)
  {
    next := ReadStep(bus, FEATURE_IO1, 0, rest);
  }

  lemma AwaitResultHonest(bus: Bus, start: Ticks, proc: Procedure, rest: seq<Reply>) returns (next: Bus)
    requires bus.replies == [Word(0x15)] + rest
    ensures AwaitResult(bus, start, proc) == Done((), next)
    ensures next.replies == rest && next.clock == bus.clock && WordWrites(next.log) == WordWrites(bus.log)
  {
    next := ReadStep(bus, FEATURE_IO1, 0x15, rest);
  }

  lemma StartProcedureHonest(bus: Bus, proc: Procedure, rest: seq<Reply>)
    requires bus.replies == Acks(|proc.Commands()|) + [Word(0x15)] + rest && |bus.clock| >= 1
    ensures Completes(StartProcedure(bus, proc), bus, rest, 1, proc.Commands())
  {
    var cmds := proc.Commands();
    assert bus.replies == Acks(|cmds|) + ([Word(0x15)] + rest);
    PlainWritesHonest(bus, cmds, [Word(0x15)] + rest);
    var b := PlainWrites(bus, cmds).bus;
    var b2 := b.(clock := b.clock[1..]);
    assert StartProcedure(bus, proc) == AwaitResult(b2, b.clock[0], proc);
    var b3 := AwaitResultHonest(b2, b.clock[0], proc, rest);
  }

  lemma RunProcedureHonest(bus: Bus, proc: Procedure, rest: seq<Reply>)
    requires bus.replies == ProcedureReplies(proc) + rest && |bus.clock| >= 1
    ensures Completes(RunProcedure(bus, proc), bus, rest, 1, proc.Commands())
  {
    var tail := Acks(|proc.Commands()|) + [Word(0x15)] + rest;
    assert bus.replies == [Word(0)] + tail;
    var b := AwaitFeatureIdleHonest(bus, tail);
    StartProcedureHonest(b, proc, rest);
    assert RunProcedure(bus, proc) == StartProcedure(b, proc);
  }

  function SelfTestReplies(): seq<Reply> {
    VerifyReplies(SelfTestWrites) + ProcedureReplies(SelfTestRun) + ProcedureReplies(CalibrationRun)
    + VerifyReplies([(FEATURE_CTRL, 0)])
  }

  /** The writes after the self-test settings: the two procedures' commands and the feature engine off. */
  function CalibrationCommands(): seq<(byte, bv16)> {
    SelfTestRun.Commands() + CalibrationRun.Commands() + [(FEATURE_CTRL, 0)]
  }

  /** Two stages that complete one after the other complete together. */
  lemma Chain(r1: Run<(), ConfigurationError>, bus: Bus, mid: seq<Reply>, k1: nat, w1: seq<(byte, bv16)>,
              r2: Run<(), ConfigurationError>, rest: seq<Reply>, k2: nat, w2: seq<(byte, bv16)>)
    requires Completes(r1, bus, mid, k1, w1) && Completes(r2, r1.bus, rest, k2, w2)
    ensures Completes(r2, bus, rest, k1 + k2, w1 + w2)
  {
    assert bus.clock[k1..][k2..] == bus.clock[k1 + k2..];
    assert WordWrites(bus.log) + w1 + w2 == WordWrites(bus.log) + (w1 + w2);
  }

  lemma CalibrateAfterSelfTestHonest(bus: Bus, rest: seq<Reply>)
    requires bus.replies == ProcedureReplies(CalibrationRun) + VerifyReplies([(FEATURE_CTRL, 0)]) + rest
    requires |bus.clock| >= 1
    ensures Completes(CalibrateAfterSelfTest(bus), bus, rest, 1, CalibrationRun.Commands() + [(FEATURE_CTRL, 0)])
  {
    var tail := VerifyReplies([(FEATURE_CTRL, 0)]) + rest;
    assert bus.replies == ProcedureReplies(CalibrationRun) + tail;
    RunProcedureHonest(bus, CalibrationRun, tail);
    var r1 := RunProcedure(bus, CalibrationRun);
    VerifyAllHonest(r1.bus, [(FEATURE_CTRL, 0)], rest);
    var r2 := VerifyAll(r1.bus, [(FEATURE_CTRL, 0)]);
    Chain(r1, bus, tail, 1, CalibrationRun.Commands(), r2, rest, 0, [(FEATURE_CTRL, 0)]);
    assert CalibrateAfterSelfTest(bus) == r2;
  }

  lemma CalibrateHonest(bus: Bus, rest: seq<Reply>)
    requires bus.replies == ProcedureReplies(SelfTestRun) + ProcedureReplies(CalibrationRun)
                           + VerifyReplies([(FEATURE_CTRL, 0)]) + rest
    requires |bus.clock| >= 2
    ensures Completes(Calibrate(bus), bus, rest, 2, CalibrationCommands())
  {
    var tail := ProcedureReplies(CalibrationRun) + VerifyReplies([(FEATURE_CTRL, 0)]) + rest;
    assert bus.replies == ProcedureReplies(SelfTestRun) + tail;
    var r1 := SelfTestStage(bus, tail);
    CalibrateAfterSelfTestHonest(r1.bus, rest);
    var r2 := CalibrateAfterSelfTest(r1.bus);
    assert Calibrate(bus) == r2;
    CalibrateChain(bus, r1, r2, tail, rest);
  }

  lemma SelfTestStage(bus: Bus, tail: seq<Reply>) returns (r1: Run<(), ConfigurationError>)
    requires bus.replies == ProcedureReplies(SelfTestRun) + tail && |bus.clock| >= 1
    ensures r1 == RunProcedure(bus, SelfTestRun) && Completes(r1, bus, tail, 1, SelfTestRun.Commands())
  {
    RunProcedureHonest(bus, SelfTestRun, tail);
    r1 := RunProcedure(bus, SelfTestRun);
  }

  lemma CalibrateChain(bus: Bus, r1: Run<(), ConfigurationError>, r2: Run<(), ConfigurationError>, tail: seq<Reply>, rest: seq<Reply>)
    requires Completes(r1, bus, tail, 1, SelfTestRun.Commands())
    requires Completes(r2, r1.bus, rest, 1, CalibrationRun.Commands() + [(FEATURE_CTRL, 0)])
    ensures Completes(r2, bus, rest, 2, CalibrationCommands())
  {
    Chain(r1, bus, tail, 1, SelfTestRun.Commands(), r2, rest, 1, CalibrationRun.Commands() + [(FEATURE_CTRL, 0)]);
    assert CalibrationCommands() == SelfTestRun.Commands() + (CalibrationRun.Commands() + [(FEATURE_CTRL, 0)]);
  }

  lemma SelfTestAndCalibrationHonest(bus: Bus, rest: seq<Reply>)
    requires bus.replies == SelfTestReplies() + rest && |bus.clock| >= 2
    ensures Completes(SelfTestAndCalibration(bus), bus, rest, 2, SelfTestWrites + CalibrationCommands())
  {
    var tail := ProcedureReplies(SelfTestRun) + ProcedureReplies(CalibrationRun)
                + VerifyReplies([(FEATURE_CTRL, 0)]) + rest;
    assert bus.replies == VerifyReplies(SelfTestWrites) + tail;
    VerifyAllHonest(bus, SelfTestWrites, tail);
    var r1 := VerifyAll(bus, SelfTestWrites);
    CalibrateHonest(r1.bus, rest);
    var r2 := Calibrate(r1.bus);
    Chain(r1, bus, tail, 0, SelfTestWrites, r2, rest, 2, CalibrationCommands());
    assert SelfTestAndCalibration(bus) == r2;
  }

  lemma OperatingAddressable()
    ensures Addressable(OperatingWrites)
  {
  }

  function FinishReplies(): seq<Reply> {
    VerifyReplies(OperatingWrites) + [Word(0)]
  }

  lemma FinishHonest(bus: Bus, rest: seq<Reply>)
    requires bus.replies == FinishReplies() + rest
    ensures Completes(Finish(bus), bus, rest, 0, OperatingWrites)
  {
    assert bus.replies == VerifyReplies(OperatingWrites) + ([Word(0)] + rest);
    OperatingAddressable();
    VerifyAllHonest(bus, OperatingWrites, [Word(0)] + rest);
    var r1 := VerifyAll(bus, OperatingWrites);
    var b := ReadStep(r1.bus, ERROR, 0, rest);
    assert CheckError(r1.bus) == Done((), b);
    assert Finish(bus) == Done((), b);
  }

  /** Every register write an honest `configure` makes after the soft reset. */
  function OperateWrites(): seq<(byte, bv16)> {
    SelfTestWrites + CalibrationCommands() + OperatingWrites
  }

  function OperateReplies(): seq<Reply> {
    SelfTestReplies() + FinishReplies()
  }

  lemma OperateHonest(bus: Bus, rest: seq<Reply>)
    requires bus.replies == OperateReplies() + rest && |bus.clock| >= 2
    ensures Completes(Operate(bus), bus, rest, 2, OperateWrites())
  {
    assert bus.replies == SelfTestReplies() + (FinishReplies() + rest);
    SelfTestAndCalibrationHonest(bus, FinishReplies() + rest);
    var r1 := SelfTestAndCalibration(bus);
    FinishHonest(r1.bus, rest);
    var r2 := Finish(r1.bus);
    Chain(r1, bus, FinishReplies() + rest, 2, SelfTestWrites + CalibrationCommands(), r2, rest, 0, OperatingWrites);
    assert Operate(bus) == r2;
  }

  function AfterPowerUpReplies(): seq<Reply> {
    [Word(CHIP_ID_VALID), Word(0)] + OperateReplies()
  }

  lemma AfterPowerUpHonest(bus: Bus, rest: seq<Reply>)
    requires bus.replies == AfterPowerUpReplies() + rest && |bus.clock| >= 2
    ensures Completes(AfterPowerUp(bus), bus, rest, 2, OperateWrites())
  {
    assert bus.replies == [Word(CHIP_ID_VALID)] + ([Word(0)] + (OperateReplies() + rest));
    var b1 := ReadStep(bus, CHIP_ID, CHIP_ID_VALID, [Word(0)] + (OperateReplies() + rest));
    var b2 := ReadStep(b1, ERROR, 0, OperateReplies() + rest);
    assert CheckError(b1) == Done((), b2);
    OperateHonest(b2, rest);
    assert AfterPowerUp(bus) == Operate(b2);
  }

  function PowerUpReplies(): seq<Reply> {
    [Word(0x0001)] + AfterPowerUpReplies()
  }

  lemma PowerUpHonest(bus: Bus, start: Ticks, rest: seq<Reply>)
    requires bus.replies == PowerUpReplies() + rest && |bus.clock| >= 2
    ensures Completes(PowerUp(bus, start), bus, rest, 2, OperateWrites())
  {
    assert bus.replies == [Word(0x0001)] + (AfterPowerUpReplies() + rest);
    var b1 := ReadStep(bus, STATUS, 0x0001, AfterPowerUpReplies() + rest);
    assert AwaitPowerUp(bus, start) == Done((), b1);
    AfterPowerUpHonest(b1, rest);
    assert PowerUp(bus, start) == AfterPowerUp(b1);
  }

  /** Every register write an honest `configure` makes, in order. */
  function ConfiguredWrites(): seq<(byte, bv16)> {
    [(CMD, 0xDEAF)] + OperateWrites()
  }

  function ResetReplies(): seq<Reply> {
    [Ack()] + PowerUpReplies()
  }

  /** The acknowledged soft reset and the reset time: the power-up wait continues on the bus after them. */
  lemma ResetStep(bus: Bus, rest: seq<Reply>) returns (next: Bus)
    requires bus.replies == [Ack()] + rest && |bus.clock| >= 1
    ensures Reset(bus) == PowerUp(next, bus.clock[0])
    ensures next.replies == rest && next.clock == bus.clock[1..]
    ensures WordWrites(next.log) == WordWrites(bus.log) + [(CMD, 0xDEAF)]
  {
    var b1 := Bus(rest, bus.clock, bus.log + [Write(WriteFrame(CMD, 0xDEAF))]);
    assert WriteRegister(bus, CMD, 0xDEAF) == Done((), b1);
    WriteLogged(bus.log, CMD, 0xDEAF);
    next := b1.(clock := bus.clock[1..]);
  }

  lemma ResetHonest(bus: Bus, rest: seq<Reply>)
    requires bus.replies == ResetReplies() + rest && |bus.clock| >= 3
    ensures Completes(Reset(bus), bus, rest, 3, ConfiguredWrites())
  {
    assert bus.replies == [Ack()] + (PowerUpReplies() + rest);
    var b := ResetStep(bus, PowerUpReplies() + rest);
    PowerUpHonest(b, bus.clock[0], rest);
    PrependWrite(bus, b, PowerUp(b, bus.clock[0]), rest, 2, (CMD, 0xDEAF), OperateWrites());
  }

  /** A write and a clock reading before a stage that completes. */
  lemma PrependWrite(bus: Bus, next: Bus, r: Run<(), ConfigurationError>, rest: seq<Reply>, k: nat,
                     w: (byte, bv16), ws: seq<(byte, bv16)>)
    requires |bus.clock| >= 1 && next.clock == bus.clock[1..]
    requires WordWrites(next.log) == WordWrites(bus.log) + [w]
    requires Completes(r, next, rest, k, ws)
    ensures Completes(r, bus, rest, k + 1, [w] + ws)
  {
    assert bus.clock[1..][k..] == bus.clock[k + 1..];
    assert WordWrites(bus.log) + [w] + ws == WordWrites(bus.log) + ([w] + ws);
  }

  function IdentifyReplies(): seq<Reply> {
    [Word(CHIP_ID_VALID)] + ResetReplies()
  }

  lemma IdentifyHonest(bus: Bus, rest: seq<Reply>)
    requires bus.replies == IdentifyReplies() + rest && |bus.clock| >= 3
    ensures Completes(Identify(bus), bus, rest, 3, ConfiguredWrites())
  {
    assert bus.replies == [Word(CHIP_ID_VALID)] + (ResetReplies() + rest);
    var b1 := ReadStep(bus, CHIP_ID, CHIP_ID_VALID, ResetReplies() + rest);
    assert ChipAccepted(CHIP_ID_VALID);
    ResetHonest(b1, rest);
    assert Identify(bus) == Reset(b1);
  }

  /**
    The replies of a BMI323 that answers every step as intended: its chip
    identification, a completed power-up, a clear error register, a passed
    self-test and self-calibration, each verified write read back, and a clear
    error register at the end.
   */
  function HonestReplies(): seq<Reply> {
    [Word(CHIP_ID_VALID)] + IdentifyReplies()
  }

  /**
    Against an honest chip `configure` succeeds, takes three clock readings
    (the reset, self-test and calibration start times) and writes exactly the
    soft reset, the self-test settings, the procedure commands, the feature
    engine off, and the operating registers, in that order.
   */
  lemma ConfigureHonestChip(bus: Bus, rest: seq<Reply>)
    requires bus.replies == HonestReplies() + rest && |bus.clock| >= 3
    ensures Completes(Configure(bus), bus, rest, 3, ConfiguredWrites())
    ensures Configure(bus).Done? && EndsClean(bus, Configure(bus).bus)
  {
    assert bus.replies == [Word(CHIP_ID_VALID)] + (IdentifyReplies() + rest);
    var b1 := ReadStep(bus, CHIP_ID, CHIP_ID_VALID, IdentifyReplies() + rest);
    IdentifyHonest(b1, rest);
    assert Configure(bus) == Identify(b1);
  }
}
